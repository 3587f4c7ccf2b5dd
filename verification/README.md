# Verified model of the kart service

This project models six parts of the kart backend in Dafny and proves what they promise: the
sliding-window rate limiter, the two-pass coupon ingestion, discount arithmetic and order
placement, coupon redemption under concurrency, health checks with thresholds, and the generated
JSON codec and router. `dafny verify dfyconfig.toml` checks all of it.

Code that changes state in place is modelled by classes, methods and loops. Each method is proved
against a function on values, and the results about whole runs are lemmas about those functions.

## Files

| file | content |
|---|---|
| `SlidingWindow*.dfy` | one key's limiter as a state machine; its invariant, interval bounds (when they are kept and reached, over many windows, for late readings), promises, answers from past answers, and the shared map |
| `RateLimiter.dfy` | the mutable limiter with fractional counts, proved against `SlidingWindow` |
| `Ingest*.dfy` | both passes on values, their loops, and every interleaving of the workers |
| `Discount*.dfy` | the three strategies and the laws about money |
| `Validator.dfy`, `OrderService.dfy` | coupon table, validation, placement |
| `Redemption*.dfy` | placements interleaved statement by statement over one coupon row |
| `Health*.dfy` | threshold automaton, flapping, the readiness endpoint |
| `Json.dfy`, `Codec*.dfy`, `Router.dfy` | decoders over object fields, field names, order and types, required fields, round trips, the unrolled router |
| `Bits.dfy`, `Common.dfy` | bit masks as numbers and as sets; `Option` and `Result` |

## Conventions

- Times are integer nanoseconds since Go's zero time, so that `Truncate` is `t - t % w`. The window
  length is positive.
- `time.Now()` is read before the lock (`pkg/httpmiddleware/ratelimit.go:156-158`), so readings can
  reach `allow` out of order. The invariants (`RunInv`, `ReplyOk`, `ClampsIdle`, `MapRunInv`,
  `StartsNeverGoBack`) hold for any readings at all. The promise of the remaining count, the absence
  of starvation and the long-run rate assume readings that never go back. For the admissions in one
  window the need is exact, with readings at most d behind the largest so far and a positive `Max`:
  the bound `3 * Max - 1` of an ordered clock holds if and only if d is at most one window
  (`PeakKeptExactly`); some bound holds if and only if d is less than two windows
  (`BoundedExactly`). Without cleanups some bound holds for every clock if and only if `Max` is at
  most one (`CallsBoundedExactly`).
- Prices are whole cents and coupon values hundredths, as the columns store them
  (`db/migrations/001_schema.sql:4`, `:15`, `:23`). `Round(2)` is half away from zero and only
  matters for percentages.
- A file is its sequence of lines. A Bloom filter is any representation with `empty`, `add` and
  `test` that never forgets an added string; nothing is assumed about false positives. Lengths
  count characters, one per byte.
- Database refusals, lost answers, the clock and the new order id are parameters. A write ends as
  `Done`, `Refused` or `AnswerLost` (carried out, error reported).

## Where the code and its documentation differ

- The limiter's configuration speaks of the maximum number of requests per window
  (`pkg/httpmiddleware/ratelimit.go:17`). That an interval of one window never holds more than `Max`
  admissions is true if and only if `Max` is not positive, or the window is one nanosecond, or it is
  two and `Max` is at most two (`SlidingWindowExact.LimitKeptExactly`); for every other configuration
  it fails however late the run begins. What holds for every configuration is `3 * Max - 1`
  (`IntervalBound`): an entry's first window starts unaligned, and counts in earlier windows are
  weighted down. It is reached if and only if the window is longer than `3 * Max`, or is three
  nanoseconds with `Max` one (`BoundReachedExactly`). Over k windows in a row the bound is
  `(k + 2) * Max - 1` (`LongRunBound`), so in the long run the rate is `Max` per window.
- `ARCHITECTURE.md:17` speaks of high confidence and an acceptable false positive rate. The result
  is exact whatever the false positives are, because a bit is only set for a code that was read
  from that file. It is exact for every list of n files if and only if n is at most 64, the width of
  the mask (`ExactUpTo64`); the program itself uses three (`cmd/coupon-ingest/main.go:27`).
- The usage limit (line 117 of the repository's own `README.md`) is checked before the increment without a transaction, so it can
  be exceeded by the number of concurrent placements less one. While the coupon can still be used,
  every run keeps the limit if and only if at most one placement is between lookup and increment
  (`RedemptionWitness.LimitKeptExactly`). The lookup ignores case and the increment does not
  (`internal/repository/coupon.go:19`, `:21`), so a use is only counted when the code is spelled as
  stored; `SpellingDecides` makes that an equivalence.
- `total + discounts` equals the subtotal for fixed amounts, free items and percentages up to 100.
  Above 100 percent it can fail; `OverHundredPercent` gives the exact condition.
- `OrderReq` is written with an empty list when its items are nil, so it comes back unchanged
  exactly when they are not nil (`OrderReqRoundTrip`).

## Model

| member | source | states |
|---|---|---|
| SlidingWindowInvariant.RunInv | pkg/httpmiddleware/ratelimit.go:55-111 | for any clock readings, backward ones included, every reachable entry has integral counts between 0 and the limit, every reset time lies strictly after its call, every remaining count is within the limit and 0 on a denial |
| SlidingWindowInvariant.ClampsIdle | pkg/httpmiddleware/ratelimit.go:79-97 | neither the negative-overlap nor the negative-remaining clamp ever fires |
| SlidingWindowInvariant.OpenedFacts | pkg/httpmiddleware/ratelimit.go:59-75 | after the rotation the window is open at the call's time, and a rotation moves its start strictly forward to a multiple of the window length |
| SlidingWindowInvariant.StepInv | pkg/httpmiddleware/ratelimit.go:55-111 | one call or cleanup keeps the counts between 0 and the limit |
| SlidingWindowInvariant.ReplyOk | pkg/httpmiddleware/ratelimit.go:85-98 | a single answer on a sound entry has a future reset time and a remaining count below the limit |
| SlidingWindowInvariant.StartsNeverGoBack | pkg/httpmiddleware/ratelimit.go:66-75 | over any run of calls the window start never moves back, and within one window the previous count is fixed and the current one only grows |
| SlidingWindowBound.IntervalBound | pkg/httpmiddleware/ratelimit.go:55-111 | with an ordered clock any half-open interval of one window length holds at most 3·Max−1 admissions of a key, at most 2·Max counted in aligned windows, at most Max in unaligned ones, and none when Max ≤ 0 |
| SlidingWindowBound.StepKeepsTally | pkg/httpmiddleware/ratelimit.go:65-98 | the invariant behind the bound: how admissions split over the unaligned, earlier and current window of an interval |
| SlidingWindowBound.TallyRun | pkg/httpmiddleware/ratelimit.go:55-111 | the tally kept along a run is the number of admissions counted from its answers |
| SlidingWindowWitness.BoundAttained | pkg/httpmiddleware/ratelimit.go:61-75 | for every Max ≥ 1, every window longer than 3·Max, every multiple c of the window and every k ≥ 1, some ordered run from c − 1 on has exactly (k+2)·Max−1 admissions in k windows in a row |
| SlidingWindowLongRun.LongRunBound | pkg/httpmiddleware/ratelimit.go:55-111 | with an ordered clock any interval of k windows holds at most (k+2)·Max−1 admissions of a key |
| SlidingWindowLongRun.LongRequest | pkg/httpmiddleware/ratelimit.go:59-98 | a call that is not admitted before its window's start keeps the invariant behind that bound |
| SlidingWindowLongRun.CapRises | pkg/httpmiddleware/ratelimit.go:66-75 | between the starts of two windows of a key there is room for one more full window |
| SlidingWindowLongRun.CallsBound | pkg/httpmiddleware/ratelimit.go:55-99 | without cleanups and with Max ≤ 1 the same bound holds for any clock readings |
| SlidingWindowLongRun.NeverEarly | pkg/httpmiddleware/ratelimit.go:79-91 | under a limit of one an entry that has been called admits nothing before its window's start |
| SlidingWindowExact.BoundReachedExactly | pkg/httpmiddleware/ratelimit.go:55-99 | 3·Max−1 admissions in one interval are reached by some ordered run, however late it begins, if and only if the window is longer than 3·Max or is 3 with Max 1 |
| SlidingWindowExact.ShortRun | pkg/httpmiddleware/ratelimit.go:65-98 | for Max ≥ 2 and windows of at most 3·Max ticks every ordered run stays within 3·Max−2 |
| SlidingWindowExact.NotYet | pkg/httpmiddleware/ratelimit.go:79-89 | in such a window, after a full one, the last call of the limit does not fit before the interval ends |
| SlidingWindowExact.LimitKeptExactly | pkg/httpmiddleware/ratelimit.go:17 | at most Max admissions in every interval of every ordered run that begins at or after any given time, if and only if Max ≤ 0, or the window is 1, or it is 2 with Max ≤ 2 |
| SlidingWindowExact.NarrowRun | pkg/httpmiddleware/ratelimit.go:65-98 | for the windows of one or two ticks that qualify, every ordered run stays within Max |
| SlidingWindowExact.LongWindowFails | pkg/httpmiddleware/ratelimit.go:79-89 | a full burst at the last instant of a window and one call two ticks later exceed Max, for every window of three ticks or more and every Max ≥ 1 |
| SlidingWindowExact.TwoTickWindowFails | pkg/httpmiddleware/ratelimit.go:59-75 | an unaligned first window exceeds Max for a window of two ticks and every Max ≥ 3 |
| SlidingWindowSkew.SkewedIntervalBound | pkg/httpmiddleware/ratelimit.go:156-158 | if no reading lies more than one window behind the largest so far, any interval of one window holds at most 3·Max−1 admissions of a key, as with an ordered clock |
| SlidingWindowClock.PeakKeptExactly | pkg/httpmiddleware/ratelimit.go:156-158 | 3·Max−1 is kept for all runs with readings at most d late if and only if d is at most one window or Max ≤ 0 |
| SlidingWindowClock.OneTickTooLate | pkg/httpmiddleware/ratelimit.go:101-111 | with readings one window and one tick late, some run admits 3·Max calls in one interval, for every Max ≥ 1 and window |
| SlidingWindowClock.BoundedExactly | pkg/httpmiddleware/ratelimit.go:55-111 | some bound is kept for all runs with readings at most d late if and only if d is less than two windows or Max ≤ 0 |
| SlidingWindowClock.PlaceRun | pkg/httpmiddleware/ratelimit.go:59-75 | for readings less than two windows late windows start ever later, which gives a bound of 4·window·Max |
| SlidingWindowClock.CallsBoundedExactly | pkg/httpmiddleware/ratelimit.go:55-99 | some bound is kept for all runs of calls without cleanups, whatever their readings, if and only if Max ≤ 1 |
| SlidingWindowSkew.SkewedRequest | pkg/httpmiddleware/ratelimit.go:59-98 | a late or early call keeps the invariant behind that bound: where the entry's window starts limits the admissions so far |
| SlidingWindowSkew.RotatedFits | pkg/httpmiddleware/ratelimit.go:66-75 | a rotation leaves the admissions so far within the limit of the new window's start |
| SlidingWindowSkew.EarlyAdmission | pkg/httpmiddleware/ratelimit.go:79-91 | a call admitted before its window's start leaves both counts together at most Max |
| SlidingWindowWitness.BackwardClockUnbounded | pkg/httpmiddleware/ratelimit.go:101-111 | for every Max ≥ 1, window, reading r and k, k calls are admitted at the reading r when each is followed by a cleanup two windows ahead |
| SlidingWindowWitness.BackwardCallsUnbounded | pkg/httpmiddleware/ratelimit.go:66-75 | for every Max ≥ 2, calls in the future between them do the same without any cleanup |
| SlidingWindowPromise.LoadNeverRises | pkg/httpmiddleware/ratelimit.go:66-84 | the weighted count never rises between admissions, across a rotation included |
| SlidingWindowPromise.RemainingIsAPromise | pkg/httpmiddleware/ratelimit.go:91-98 | after an answer with remaining r the next r calls of the key are all admitted, across rotations and cleanups |
| SlidingWindowPromise.RoomKept | pkg/httpmiddleware/ratelimit.go:65-98 | with room for r calls under the limit, r calls are admitted whenever they come |
| SlidingWindowPromise.RemainingMeansRoom | pkg/httpmiddleware/ratelimit.go:91-98 | the weighted room an admitted call leaves lies between its remaining count and one more |
| SlidingWindowPromise.AtMostOneMore | pkg/httpmiddleware/ratelimit.go:87-98 | at the same instant at most r+1 further calls are admitted |
| SlidingWindowPromise.NoStarvation | pkg/httpmiddleware/ratelimit.go:66-89 | after a denial in a window starting at c with nothing admitted since, a call at or after c + 2·Window is admitted, even if denied calls or cleanups changed the entry in between |
| SlidingWindowPromise.DeniedWaits | pkg/httpmiddleware/ratelimit.go:87-89 | every denial starts such a wait, on the window it was denied in |
| SlidingWindowPromise.DeniedCallerGetsIn | pkg/httpmiddleware/ratelimit.go:55-111 | a run that begins with a denial and ends with a call two windows later contains an admission |
| SlidingWindowPromise.FirstCallAfterWindow | pkg/httpmiddleware/ratelimit.go:66-89 | the first call after a window elapsed is denied if and only if that window was full, the call is at an exact multiple of the window length, and less than two lengths have passed |
| SlidingWindowMap.StepRefines | pkg/httpmiddleware/ratelimit.go:59-63 | one operation on the map is, for each key, that key's own event or nothing |
| SlidingWindowMap.MapRefinesKeys | pkg/httpmiddleware/ratelimit.go:55-111 | a key's answers in a run of the shared map are those of the run restricted to that key and the cleanups |
| SlidingWindowMap.MapRunInv | pkg/httpmiddleware/ratelimit.go:55-111 | every reachable map of entries satisfies the invariant, for any clock readings |
| SlidingWindowMap.MapIntervalBound | pkg/httpmiddleware/ratelimit.go:55-111 | the interval bounds hold for each key of the shared map |
| SlidingWindowMap.MapSkewedBound | pkg/httpmiddleware/ratelimit.go:156-158 | the bound of 3·Max−1 holds for each key of the shared map when no reading of any key is more than one window late |
| SlidingWindowMap.MapPromise | pkg/httpmiddleware/ratelimit.go:91-98 | the promise of the remaining count holds whatever other keys do and whenever cleanups run |
| SlidingWindowMap.CleanupTransparent | pkg/httpmiddleware/ratelimit.go:102-111 | deleting an expired entry leaves the next call's allowed and remaining unchanged and moves its reset time later by less than one window |
| SlidingWindowHistory.HistoryDecides | pkg/httpmiddleware/ratelimit.go:55-99 | with an ordered clock each answer follows from the answers before it: its window, admission if and only if the previous window's admissions weighted by the overlap and the current window's are below Max, the remaining count, the reset time |
| SlidingWindowHistory.LedgerRun | pkg/httpmiddleware/ratelimit.go:65-75 | the two counts of an entry are the numbers of calls admitted in its current window and in the one before it |
| RateLimiter.WeightedTest | pkg/httpmiddleware/ratelimit.go:79-94 | the fractional comparison with the limit and the conversion of the rest to an int decide exactly as the scaled integers do |
| RateLimiter.ScaledToInt | pkg/httpmiddleware/ratelimit.go:94 | dropping the fraction of n/w is integer division towards zero |
| RateLimiter.EnsuredThenServed | pkg/httpmiddleware/ratelimit.go:59-63 | creating a new key's entry first and serving it then is one step of the state machine |
| RateLimiter.RateLimiter.Rotate | pkg/httpmiddleware/ratelimit.go:65-75 | the in-place rotation is the rotation of the state machine |
| RateLimiter.RateLimiter.Decide | pkg/httpmiddleware/ratelimit.go:77-98 | the decision, the count and the remaining number on an open window, in terms of the entry before the call |
| RateLimiter.RateLimiter.Allow | pkg/httpmiddleware/ratelimit.go:55-99 | the whole map after a call is one step of the state machine, other keys untouched, and the answer is that step's |
| RateLimiter.RateLimiter.Cleanup | pkg/httpmiddleware/ratelimit.go:102-111 | the deletion loop removes exactly the expired entries |
| Ingest.Exactness | cmd/coupon-ingest/main.go:29-30 | for every filter without false negatives, a code is kept if and only if it has 8 to 10 characters and occurs in at least two of the (first 64) files |
| Ingest.MaskCountsFiles | cmd/coupon-ingest/main.go:203-217 | the popcount of a shared code's mask is the number of files that contain it; any other code's mask has at most one bit |
| Ingest.MaskBits | cmd/coupon-ingest/main.go:231-256 | a bit is set exactly for a file that has the code when another file's filter claims it |
| Ingest.CandidatesSpec | cmd/coupon-ingest/main.go:222-270 | the candidates of a file are exactly its eligible lines that another filter claims, and repeats leave the single file bit |
| Ingest.FilterComplete | cmd/coupon-ingest/main.go:159-187 | every eligible line of a file tests true in its filter |
| Ingest.SetFilterSpec | cmd/coupon-ingest/main.go:164-166 | the first pass adds exactly the lines of 8 to 10 characters, as an exact filter shows |
| Ingest.CandidatesExactly | cmd/coupon-ingest/main.go:234-256 | with exact filters the candidates of a file are exactly the lines of 8 to 10 characters that another file has |
| Ingest.MergedBit | cmd/coupon-ingest/main.go:203-209 | a bit of the merged mask is set exactly when it is set in some file's result |
| Ingest.TwoFilesMeansTwoIndices | cmd/coupon-ingest/main.go:190 | for up to 64 files, being kept means occurring in two files of different index |
| Ingest.LostBit | cmd/coupon-ingest/main.go:231 | the shift of a file bit past the word width gives zero: for any number of files, a code is valid if and only if it has 8 to 10 characters and two of the first 64 have it |
| Ingest.ExactUpTo64 | cmd/coupon-ingest/main.go:189-217 | the valid codes are those that two files share, for every list of n files, if and only if n ≤ 64 |
| Ingest.BitArrayHonoursContract | cmd/coupon-ingest/main.go:161-166 | the contract is met by a bit array of any size with any hash functions |
| IngestPasses.BuildFilterForFile | cmd/coupon-ingest/main.go:159-187 | the worker fills its own slot with its file's filter and no other, and nothing when the file breaks |
| IngestPasses.BuildBloomFilters | cmd/coupon-ingest/main.go:144-157 | all filters in file order, or the error of a broken file and no filters |
| IngestPasses.TestOthers | cmd/coupon-ingest/main.go:248-256 | the search that skips the file's own filter and stops at the first hit finds a claim exactly when there is one |
| IngestPasses.FindCandidatesInFile | cmd/coupon-ingest/main.go:222-270 | the second-pass worker publishes its file's candidates in its own slot, or nothing when the file breaks |
| IngestPasses.MergeOne | cmd/coupon-ingest/main.go:206-208 | or-ing masks entry by entry, in any map order, gives the union with masks combined bit by bit |
| IngestPasses.KeepShared | cmd/coupon-ingest/main.go:211-217 | in any map order the codes with at least two bits are collected, each once |
| IngestPasses.FindValidCodes | cmd/coupon-ingest/main.go:191-220 | without duplicates, exactly the codes of the merged candidates with at least two bits, or an error |
| IngestPasses.IngestAll | cmd/coupon-ingest/main.go:104-118 | both passes together: success exactly when no file breaks, and then exactly the codes of 8 to 10 characters that two of the (first 64) files have, without duplicates |
| IngestConcurrent.MoveKeepsInv | cmd/coupon-ingest/main.go:147-154 | whatever the interleaving, each worker stands where it would stand alone |
| IngestConcurrent.ScheduleIrrelevant | cmd/coupon-ingest/main.go:147-156 | every complete schedule without a failure leaves the slots of the one-by-one run |
| IngestConcurrent.ScheduleInv | cmd/coupon-ingest/main.go:147-154 | the invariant along any schedule; some worker has failed exactly when the schedule contains a failure |
| IngestConcurrent.SchedulesAreFinite | cmd/coupon-ingest/main.go:147-154 | no schedule is longer than the lines left plus one move per worker |
| IngestConcurrent.SomeWorkerCanMove | cmd/coupon-ingest/main.go:147-154 | while a worker runs, some worker can move without failing |
| IngestConcurrent.FiltersFinished | cmd/coupon-ingest/main.go:107-115 | no step of the second pass sees a missing or unfinished filter |
| IngestConcurrent.NextKeepsInv | cmd/coupon-ingest/main.go:104-118 | every worker move and both barriers keep the invariant of the pipeline |
| IngestConcurrent.InterleavingExact | cmd/coupon-ingest/main.go:93-118 | every interleaving that ends: an error exactly when a worker failed, and otherwise exactly the codes of 8 to 10 characters that two of the (first 64) files have |
| Discount.RoundSpec | internal/domain/coupon/discount.go:48 | the rounded amount is the only cent within half a cent, halves going away from zero |
| Discount.CalcSubtotal | internal/domain/coupon/discount.go:76-83 | the loop computes the subtotal of the lines |
| Discount.CalcTotalQuantity | internal/domain/coupon/discount.go:86-92 | the loop computes the number of units |
| Discount.FindLowestUnitPrice | internal/domain/coupon/discount.go:96-107 | the loop computes the lowest price, zero for no lines |
| Discount.ApplyRule | internal/domain/coupon/discount.go:17-44 | the branches of `Apply`, cap included, give the discount that the laws below are about |
| DiscountLaws.LowestSpec | internal/domain/coupon/discount.go:94-107 | the lowest price is attained and is a lower bound |
| DiscountLaws.FixedAmount | internal/domain/coupon/discount.go:56-64 | an uncapped fixed rule gives its value or the subtotal, whichever is less, and nothing of a negative one |
| DiscountLaws.FreeItemAmount | internal/domain/coupon/discount.go:66-73 | an uncapped free item is worth the price of some line, and no line is cheaper |
| DiscountLaws.PercentageAmount | internal/domain/coupon/discount.go:46-54 | an uncapped percentage is within half a cent of the exact share of the subtotal, a half rounded up |
| DiscountLaws.CapAmount | internal/domain/coupon/discount.go:38-41 | a positive cap gives the smaller of itself and the uncapped amount, and changes no error |
| DiscountLaws.WhenRejected | internal/domain/coupon/discount.go:17-36 | the coupon is invalid if and only if the cart has fewer units than the rule's positive minimum; the only other error is an unknown type; the description is the rule's |
| DiscountLaws.Conservation | internal/domain/coupon/discount.go:46-73 | for fixed, free_lowest or at most 100 percent the discount lies between 0 and the subtotal, and charge plus discount is the subtotal |
| DiscountLaws.OverHundredPercent | internal/domain/coupon/discount.go:38-50 | above 100 percent the identity holds if and only if a cap holds the discount to the subtotal or the excess is below half a cent |
| DiscountLaws.PercentageMonotone | internal/domain/order/service.go:132-137 | rounding, cap and floor together: a percentage never makes a larger subtotal cheaper |
| DiscountLaws.LargerCartNeverCheaper | internal/domain/coupon/discount.go:17-115 | adding lines anywhere or raising quantities never lowers the total payable under the same rule, and the larger cart is still accepted |
| DiscountLaws.NumbersOfUnits | internal/domain/coupon/discount.go:75-107 | subtotal, quantity and lowest price are the sum, size and least element of the bag of priced units |
| DiscountLaws.UnitsDecide | internal/domain/coupon/discount.go:17-107 | carts with the same bag of priced units get the same amount or the same error |
| DiscountLaws.PermutedLines | internal/domain/coupon/discount.go:17-107 | permuting the lines changes nothing |
| DiscountLaws.SplitLine | internal/domain/coupon/discount.go:17-107 | splitting a line into two of the same price whose quantities sum to it changes nothing |
| Validator.CouponRepository.FindByCode | internal/repository/coupon.go:38-52 | the one active row whose code matches up to case; none is an invalid coupon, several are an error |
| Validator.CouponRepository.IncrementUses | internal/repository/coupon.go:55-61 | one use more on the row of exactly that code, no change without one |
| Validator.RepoValidator.Validate | internal/domain/coupon/validator.go:31-63 | the guarded steps return what the specification says and leave the table it says |
| Validator.UpperIgnoresCase | internal/repository/coupon.go:19 | two spellings are the same for the lookup if and only if they differ in the case of ASCII letters only |
| Validator.LookupExactly | internal/repository/coupon.go:38-52 | invalid if and only if no active row has the code up to case; the rule of the one row that has; an error if and only if several have |
| Validator.ValidatedExactly | internal/domain/coupon/validator.go:31-63 | accepted if and only if a rule is found, now is within its period, it is not used up, it applies and the increment succeeds; expired, used up and failed increment each if and only if their own condition holds |
| Validator.ValidatedTable | internal/domain/coupon/validator.go:58-60 | exactly the row of that code gains one use, if and only if everything before the increment succeeds and the increment is carried out |
| Validator.ValidationCounts | internal/domain/coupon/validator.go:31-63 | an accepted validation of the stored spelling counts exactly one use of that row, other rows and other fields stay, and alone it never passes the limit |
| OrderService.Service.GetByIDs | internal/repository/product.go:65-71 | the catalogue rows of the ids, in any order |
| OrderService.Service.CollectIds | internal/domain/order/service.go:77-84 | the ids line by line, or the first line without a positive quantity |
| OrderService.Service.IndexById | internal/domain/order/service.go:92-95 | whatever the order of the rows, the index maps each fetched id to its catalogue row |
| OrderService.Service.MatchProducts | internal/domain/order/service.go:97-105 | the catalogue row of every line in line order, or the first line without one |
| OrderService.Service.BuildLines | internal/domain/order/service.go:107-120 | the priced lines, and a service subtotal equal to the validator's subtotal of them |
| OrderService.Service.PlaceOrder | internal/domain/order/service.go:72-156 | answer, coupon table and order store after a placement, for every request and every refusal |
| OrderService.FirstNonPositiveSpec | internal/domain/order/service.go:79-82 | the reported line is the first without a positive quantity; none is reported exactly when all are positive |
| OrderService.FirstMissingSpec | internal/domain/order/service.go:99-103 | the reported line is the first with an unknown product |
| OrderService.ProductMatching | internal/domain/order/service.go:86-105 | matching succeeds exactly when every id is in the catalogue; then product i is the row of line i, otherwise the error names the first missing id |
| OrderService.PlacementExactly | internal/domain/order/service.go:72-156 | accepted if and only if there are lines, all positive, the fetch succeeds, all products are known, there is no coupon or it is accepted, and the insert succeeds; the failed insert, the rejected coupon and the missing product each if and only if their own condition holds |
| OrderService.PlacementEffects | internal/domain/order/service.go:122-150 | an order is added exactly when everything before the insert succeeds and the insert is carried out; its id, items, coupon code, discount and total |
| OrderService.PlacementTable | internal/domain/order/service.go:122-130 | the coupon table left is that of the validation, exactly if the request comes to one |
| OrderService.PricedLinesSpec | internal/domain/order/service.go:110-118 | line i is priced with the catalogue price of its own product |
| OrderService.EarlyErrors | internal/domain/order/service.go:73-105 | which error comes when, that nothing is written before the coupon, and that only a failing insert can leave an order behind an error |
| OrderService.DiscountIsTheRules | internal/domain/order/service.go:122-130 | an accepted order with a coupon is discounted by what the matching rule gives its priced lines, and the table gains exactly that use |
| OrderService.StoredOrdersSound | internal/domain/order/service.go:132-150 | every stored order has known products, positive quantities and a total equal to the floored difference, whatever the prices; a placement appends at most one order |
| OrderService.PlacementConservesMoney | internal/domain/order/service.go:132-147 | in an accepted placement the stored total plus discounts is the subtotal, for non-negative prices, unless the rule is above 100 percent |
| Redemption.UsesConserved | internal/domain/coupon/validator.go:31-63 | in every interleaving the uses less the stored orders of that spelling, the placements about to store and the abandoned uses never change |
| Redemption.UsesCoverOrders | internal/domain/order/service.go:122-150 | the increase in uses is at least the number of orders stored with exactly the row's code, with equality when nothing is in flight or abandoned |
| Redemption.StepKeepsLimit | internal/domain/coupon/validator.go:49-60 | each statement of each placement keeps the invariant behind the limit |
| Redemption.LimitOvershoot | internal/domain/coupon/validator.go:31-63 | with at most n placements of the stored spelling between lookup and increment, uses never exceed MaxUses + n − 1, so never MaxUses one at a time |
| Redemption.LimitRun | internal/domain/coupon/validator.go:31-63 | the same from any state that satisfies the invariant |
| RedemptionWitness.OvershootAttained | internal/domain/coupon/validator.go:49-60 | for every limit, every number of uses below it and every n ≥ 1 some run with at most n placements between lookup and increment ends at exactly MaxUses + n − 1 |
| RedemptionWitness.LimitKeptExactly | internal/domain/coupon/validator.go:49-60 | while the row can be used, every run with at most n placements in flight keeps the limit if and only if n ≤ 1 |
| RedemptionWitness.SerialUses | internal/domain/coupon/validator.go:31-63 | placements one after the other use the coupon one time each, up to its limit |
| RedemptionWitness.OrderServed | internal/domain/order/service.go:122-150 | a placement that runs alone is stored, and counted exactly if it spells the code as stored |
| RedemptionWitness.AloneIsValidate | internal/domain/coupon/validator.go:31-63 | the interleaved statements of one placement, run alone, are one `Validate` of the table |
| RedemptionWitness.FindIsLookup | internal/domain/coupon/validator.go:32-38 | the first statement of a placement finds the row exactly when the lookup in the table does, and remembers the rule |
| RedemptionWitness.AloneIsPlacement | internal/domain/order/service.go:122-150 | the interleaved statements of one placement, run alone and however each ends, leave the coupon row and the orders that `PlaceOrder` leaves |
| RedemptionWitness.RespelledOrder | internal/repository/coupon.go:16-22 | a placement with other capitals is served, stored, and leaves the counter alone |
| RedemptionWitness.SpellingDecides | internal/repository/coupon.go:16-22 | for one spelling of the code, uses cover orders in every interleaving if and only if it is the stored spelling |
| Health.CountersAreTrailingRuns | pkg/health/health.go:70-82 | the counters are the lengths of the trailing runs of failures and of successes |
| Health.LatestRunDecides | pkg/health/health.go:63-83 | for any thresholds ≥ 1 the flag is healthy if and only if every completed run of failures is followed by a completed run of successes |
| Health.FlappingIsBounded | pkg/health/health.go:3-7 | k flips take at least ceil(k/2)·F + floor(k/2)·S executions |
| Health.FlappingAttained | pkg/health/health.go:63-83 | for every k some history of exactly that length has k flips |
| Health.CostClosedForm | pkg/health/health.go:63-83 | alternating runs of F failures and S successes add up to that number |
| Health.FlipsNeedRuns | pkg/health/health.go:63-83 | the flag's side is the parity of the flips, and the executions beyond those the flips cost are at least the run in progress |
| HealthService.CheckConfig.constructor | pkg/health/health.go:125-138 | a check starts healthy with thresholds of three failures and one success |
| HealthService.CheckConfig.Run | pkg/health/health.go:63-83 | after every execution the fields are what the whole history of results makes them, and the message to show is that execution's error |
| HealthService.CollectFailures | pkg/health/health.go:256-268 | a name is listed exactly when a check of that name is unhealthy, with the latest error of the last such check, and the fixed text only without an error |
| HealthService.UnhealthyShowsError | pkg/health/health.go:253-268 | with a success threshold of one, what an unhealthy check shows is always the error of its latest execution |
| HealthService.FailuresSpec | pkg/health/health.go:256-268 | a name is listed exactly when a check of that name is unhealthy, with the message of the last such check |
| HealthService.NoFailures | pkg/health/health.go:256-268 | nothing is listed exactly when every check is healthy |
| HealthService.Service.IsReady | pkg/health/health.go:187-202 | true exactly when marked ready and every readiness check is healthy |
| HealthService.Service.ReadyEndpoint | pkg/health/health.go:238-251 | 200 if and only if ready and every readiness check is healthy, with an empty list exactly then; otherwise 503 with each unhealthy check's latest error, and the readiness entry if not ready |
| Json.ObjBytes | gen/oas/oas_json_gen.go:1052-1107 | the field-by-field traversal of a decoder is a fold that stops at the first error |
| Json.Reordered | gen/oas/oas_json_gen.go:1052-1107 | for a decoder whose fields commute, any order of distinct fields decodes alike |
| Json.UnknownIgnored | gen/oas/oas_json_gen.go:1103-1105 | any number of fields the decoder skips may stand anywhere |
| Json.AlikeDecodeAlike | gen/oas/oas_json_gen.go:1052-1107 | two objects whose known fields are the same up to order decode alike, whatever unknown fields are among them |
| Json.TraversalSucceeds | gen/oas/oas_json_gen.go:1052-1110 | a traversal succeeds exactly when each field on its own is acceptable |
| CodecLaws.ImageRoundTrip | gen/oas/oas_json_gen.go:1136-1227 | decoding undoes encoding of product images, and every option shows the same through `Get` |
| CodecLaws.ProductRoundTrip | gen/oas/oas_json_gen.go:1005-1113 | the same for products, image included |
| CodecLaws.OrderItemRoundTrip | gen/oas/oas_json_gen.go:537-594 | the same for order items |
| CodecLaws.OrderRoundTrip | gen/oas/oas_json_gen.go:384-514 | the same for orders, nil and empty lists kept apart |
| CodecLaws.OrderReqItemRoundTrip | gen/oas/oas_json_gen.go:740-830 | decoding undoes encoding of request items |
| CodecLaws.OrderReqRoundTrip | gen/oas/oas_json_gen.go:617-718 | a request comes back with nil items as an empty list, so unchanged if and only if its items are not nil |
| CodecLaws.ErrorRoundTrip | gen/oas/oas_json_gen.go:22-113 | decoding undoes encoding of error bodies |
| CodecNames.OrderWritten | gen/oas/oas_json_gen.go:384-423 | the field under each literal name carries that member of the order, it is there exactly if the member is set, and there is no other field |
| CodecNames.ProductWritten | gen/oas/oas_json_gen.go:1005-1036 | the same for products |
| CodecNames.ImageWritten | gen/oas/oas_json_gen.go:1136-1161 | the same for product images |
| CodecNames.OrderItemWritten | gen/oas/oas_json_gen.go:537-550 | the same for order items |
| CodecNames.OrderReqWritten | gen/oas/oas_json_gen.go:617-632 | the same for requests, whose items are always written |
| CodecNames.OrderReqItemWritten | gen/oas/oas_json_gen.go:740-749 | the same for request items |
| CodecNames.ErrorWritten | gen/oas/oas_json_gen.go:22-31 | the same for error bodies |
| CodecNames.NumberWritten | gen/oas/oas_json_gen.go:204-209 | a number is written with its own value |
| CodecNames.ItoaIsDecimal | gen/oas/oas_json_gen.go:95-98 | a position without a name is reported by its decimal numeral |
| CodecLaws.OrderGets | gen/oas/oas_json_gen.go:204-374 | two orders have the same plain form if and only if `Get` shows the same of every option in them, items, products and images included, with nil and empty lists apart |
| CodecLaws.ProductGets | gen/oas/oas_json_gen.go:204-374 | the same for products and their images |
| CodecLaws.OrderAgrees | gen/oas/oas_json_gen.go:384-514 | the plain form of an order, which is what comes back from a round trip, shows through `Get` what the order shows |
| CodecFields.FieldOrderIrrelevant | gen/oas/oas_json_gen.go:39-1227 | in all seven decoders, fields with different names commute, the marks of required fields included |
| CodecFields.ProductAnyOrder | gen/oas/oas_json_gen.go:1047-1113 | reordering the known fields of a product and adding, dropping or moving unknown ones changes neither the decoded value nor whether decoding fails |
| CodecFields.ImageAnyOrder | gen/oas/oas_json_gen.go:1171-1227 | the same for product images |
| CodecFields.OrderItemAnyOrder | gen/oas/oas_json_gen.go:558-594 | the same for order items |
| CodecFields.OrderReqItemAnyOrder | gen/oas/oas_json_gen.go:757-830 | the same for request items, required fields included |
| CodecFields.OrderReqAnyOrder | gen/oas/oas_json_gen.go:640-718 | the same for requests |
| CodecFields.ErrorAnyOrder | gen/oas/oas_json_gen.go:39-113 | the same for error bodies |
| CodecFields.OrderAnyOrder | gen/oas/oas_json_gen.go:434-514 | the same for orders |
| Codec.CollectMissed | gen/oas/oas_json_gen.go:78-109 | the popcount loop that clears the lowest bit reports the names at all missed positions in increasing order |
| Codec.NextMissed | gen/oas/oas_json_gen.go:90-104 | one round names the lowest missed position and leaves the later ones |
| Codec.DecodeRequiredObject | gen/oas/oas_json_gen.go:640-718 | the fields first, then the missing ones, as the functions on values say |
| CodecFields.MissedExactly | gen/oas/oas_json_gen.go:83-87 | the and-xor of bit set and mask has exactly the mask's bits that were not set |
| CodecFields.BitMeansSeen | gen/oas/oas_json_gen.go:45-77 | after the traversal a bit is set exactly when a field of that name occurred |
| CodecFields.MissingReported | gen/oas/oas_json_gen.go:78-109 | when every field is acceptable on its own, decoding fails exactly when a required field is absent, and reports exactly the absent ones, each once, in increasing index order |
| CodecFields.OrderReqItemMissing | gen/oas/oas_json_gen.go:757-830 | well-typed request item fields decode exactly with a product id and a quantity, and the error names the absent ones |
| CodecFields.ErrorMissing | gen/oas/oas_json_gen.go:39-113 | well-typed error fields decode exactly with a code and a message, and the error names the absent ones |
| CodecFields.OrderReqMissing | gen/oas/oas_json_gen.go:640-718 | well-typed request fields decode exactly with items |
| CodecFields.OrderDecodes | gen/oas/oas_json_gen.go:434-514 | decoding an order succeeds if and only if every field it knows has its type, items and products included |
| CodecFields.ProductDecodes | gen/oas/oas_json_gen.go:1047-1113 | the same for products and their image |
| CodecFields.ImageDecodes | gen/oas/oas_json_gen.go:1171-1227 | the same for product images |
| CodecFields.OrderItemDecodes | gen/oas/oas_json_gen.go:558-594 | the same for order items |
| CodecFields.OrderReqItemDecodes | gen/oas/oas_json_gen.go:757-830 | decoding a request item succeeds if and only if its fields are well-typed and both are there |
| CodecFields.OrderReqDecodes | gen/oas/oas_json_gen.go:640-718 | decoding a request succeeds if and only if its fields are well-typed, every item decodes and the items are there |
| CodecFields.ErrorDecodes | gen/oas/oas_json_gen.go:39-113 | decoding an error body succeeds if and only if its fields are well-typed and both are there |
| Bits.OnesCountIsSize | cmd/coupon-ingest/main.go:214 | the popcount of a mask is the number of positions in the set it stands for |
| Bits.ClearLowest | gen/oas/oas_json_gen.go:89-104 | clearing the lowest set bit removes exactly the first position |
| Bits.BitwiseBit | cmd/coupon-ingest/main.go:207 | or, and, xor and and-not act bit by bit |
| Router.ServeHTTP | gen/oas/oas_router_gen.go:34-162 | for every prefix, method and path: handler and argument, 405 with the allowed method, or 404, as the declarative routes say |
| Router.FindPath | gen/oas/oas_router_gen.go:215-347 | for every prefix, method and path: the route the declarative routes say, or none |
| Router.CutPrefix | gen/oas/oas_router_gen.go:19-30 | what is left after the prefix, exactly when the path has it |
| Router.IndexByte | gen/oas/oas_router_gen.go:129 | the first position of the byte, or −1 when it does not occur |
| Router.LookupAgreesWithDispatch | gen/oas/oas_router_gen.go:34-347 | a route is found exactly when dispatch calls its handler with its arguments |
| Router.DispatchExactly | gen/oas/oas_router_gen.go:34-162 | which prefix, path and method reach which of the three handlers and with what argument, which get 405 with which method, and which 404, each if and only if, with the paths written out |
| Router.RouteExactly | gen/oas/oas_router_gen.go:215-347 | the same for the routes that are found |
| Router.MatchingIsTrie | gen/oas/oas_router_gen.go:51-160 | the character-by-character trie is the match against `/order`, `/product` and `/product/` with one segment |
| Router.PatternsDisjoint | gen/oas/oas_router_gen.go:51-160 | a path matches at most one pattern, with one argument |
| Router.TrieSound | gen/oas/oas_router_gen.go:51-160 | whatever the trie accepts is a path of the pattern it names |
| Router.TrieComplete | gen/oas/oas_router_gen.go:51-160 | every path of a pattern is accepted by the trie as that pattern |

## Left out

- Limiter: IEEE rounding of the counts and of the overlap ratio; the model computes with exact fractions. A window length of zero or less, the monotonic clock reading, response headers and the cleanup ticker are not modelled.
- SlidingWindowLongRun.LongRunBound: that it is reached for k > 1 is proved for windows longer than `3 * Max` only (`BoundAttained`); the exact condition is proved for k = 1.
- Ingestion: gzip, scanning, cancellation and logging. A file is its lines and whether reading it fails. After one worker fails the others may read on, which the source cuts short; no codes come out either way. Writing the coupons to the database is not modelled.
- Bloom filter, decimal and JSON libraries: only the contracts stated above.
- Money: 64-bit overflow of quantities and counters, and the numeric range of the columns beyond a refused write.
- Coupon lookup: `UPPER` is modelled for ASCII letters, and codes compare character by character.
- Redemption follows a single coupon row. Rows that differ only in case make a lookup fail, which `Validator.CouponRepository.FindByCode` covers.
- Placement: the context, logging, error wrapping texts, and the conversion of prices to floats in the handlers. The product's image links are carried along unchanged by the source and are not in the model.
- Health: timers, goroutines and atomics; liveness endpoint and registration, which repeat the readiness ones.
- Codec: the bytes of JSON, the encoder buffer and rounding of floats. A value is a tree of fields, a number token an integer literal or not. Receivers start from their zero value. Which of several errors comes first is not compared when fields are reordered.
- Router: escaped paths, the options of the not-allowed answer besides the allowed method, and the other accessors of `Route`.
- HTTP middleware other than the limiter, API keys, configuration, wiring, the generated client and the seed data.
