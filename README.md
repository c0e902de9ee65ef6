# transactions-store: a Dafny model of the trailing-window statistics store

The system accepts money transactions (an amount and an ISO-8601 timestamp)
and reports statistics over the transactions of the last `timeToKeepAlive`
seconds (60 by default): their sum, average, maximum, minimum and count.

It does not keep single transactions. The store keeps one aggregate, a
`Statistic`, per epoch second. Each save first evicts every bucket `k` with
`now - k >= timeToKeepAlive`, then merges the transaction into bucket
`timestamp`. A read evicts against `now` and folds every remaining bucket
into a fresh `Statistic`. A converter accepts or rejects a submitted
transaction (Unparseable, Future, Stale). It also rounds a statistic to two
decimals, half-up, for the response.

The modules follow the Java classes:

- `Wrappers`: `Option` and `Result`.
- `Decimal`: `BigDecimal` arithmetic as `real`.
  - Two-decimal half-up rounding (`setScale(2, HALF_UP)` and
    `divide(.., 2, HALF_UP)`), sign-aware, ties away from zero.
  - Null-ignoring `max`/`min`.
- `Statistics` (`model/Statistic.java`):
  - the aggregate value `Agg`;
  - the mutable class `Statistic` with its constructor and `reset`;
  - the zero aggregate;
  - the store's well-formedness invariant;
  - reference definitions (sum, maximum, minimum and summary of a list of
    amounts).
- `Repository` (`repository/StatisticsRepositoryImpl.java`):
  - the class `StatisticsRepository`, whose `statistics` map field is
    reassigned by `Save`, `CleanOldStatistics` and `CleanAllStatistics`;
  - the `Statistic`-mutating `UpdateStatistic`;
  - the value-level functions that specify them (`Merged`, `Evicted`,
    `Saved`) and their lemmas.
- `Service` (`service/TransactionService.java`):
  - the reduce accumulator, both as the pure `Combine` and as the in-place
    `Accumulate`;
  - the fold over the buckets: the ghost `ReduceKeys` picks an arbitrary
    next key, because the map has no fixed order, and is proved
    order-independent;
  - the loop `ReduceStatistics`, proved equal to that fold;
  - the class `TransactionService`.
- `Converter` (`controller/util/ConverterUtils.java`): the accept/reject
  rules for a submitted transaction, and the conversion of a statistic into
  the response record.
- `Scenarios`: the situations the repository's own tests describe, derived
  from the general model. Examples:
  - the eviction series 0..9 read 65 seconds later gives 30/4/6/9;
  - 100 saves of -1..98 into one second give 4850/100/-1/98.

Time is an `int` count of epoch seconds passed in as `now`. In the converter,
instants are exact `real` seconds. A `BigDecimal` is its exact `real` value.

One boundary is worth stating, and `Scenarios.EdgeAcceptedThenEvicted`
proves it. The converter accepts a timestamp exactly `timeToKeepAlive`
seconds old, since only strictly older ones are Stale. The store evicts
buckets whose age is `>= timeToKeepAlive`. So such a transaction is accepted
and stored, but no read in that same second sees it.

## Model

| member | source | states |
|---|---|---|
| Decimal.RoundHalfUp2 | src/main/java/com/transactions/store/controller/util/ConverterUtils.java:98 | the result has at most two decimals and is the nearest cent to x; a value exactly halfway between two cents goes away from zero |
| Decimal.RoundHalfUp2Error | src/main/java/com/transactions/store/controller/util/ConverterUtils.java:98 | rounding moves a value by at most half a cent |
| Decimal.RoundHalfUp2OfCents | src/main/java/com/transactions/store/controller/util/ConverterUtils.java:98 | a value that already has two decimals is returned unchanged |
| Decimal.RoundHalfUp2Idempotent | src/main/java/com/transactions/store/controller/util/ConverterUtils.java:45 | rounding twice is rounding once, so the response shows the stored average as it is |
| Decimal.RoundHalfUp2Odd | src/main/java/com/transactions/store/controller/util/ConverterUtils.java:98 | half-up rounding is symmetric about zero: round(-x) == -round(x) |
| Decimal.RoundHalfUp2Tie | src/main/java/com/transactions/store/controller/util/ConverterUtils.java:98 | at an exact tie n + 1/2 cents the result is n + 1 cents for a non-negative value and n cents for a negative one |
| Decimal.RoundHalfUp2Monotone | src/main/java/com/transactions/store/controller/util/ConverterUtils.java:98 | rounding preserves order |
| Decimal.MaxOpt | src/main/java/com/transactions/store/service/TransactionService.java:45-47 | absent exactly when both inputs are absent; otherwise one of the present inputs, no smaller than any present input |
| Decimal.MinOpt | src/main/java/com/transactions/store/service/TransactionService.java:48-50 | absent exactly when both inputs are absent; otherwise one of the present inputs, no larger than any present input |
| Statistics.AvgOfNearest | src/main/java/com/transactions/store/repository/StatisticsRepositoryImpl.java:63 | the average is 0 without transactions; otherwise it has two decimals, is the quotient sum/count rounded half-up and lies within half a cent of it (the rule of StatisticsRepositoryImpl.java:63 and TransactionService.java:51) |
| Statistics.MaxOfIsMaximum | src/main/java/com/transactions/store/repository/StatisticsRepositoryImpl.java:60 | the reference maximum of a list is absent exactly for the empty list, is an element of it and bounds every element |
| Statistics.MinOfIsMinimum | src/main/java/com/transactions/store/repository/StatisticsRepositoryImpl.java:61 | the reference minimum is absent exactly for the empty list, is an element and is below every element |
| Statistics.SummaryWellFormed | src/main/java/com/transactions/store/model/Statistic.java:31-52 | the summary of any list of amounts satisfies the aggregate invariant: count >= 0, empty means zero sum and absent extrema, min <= max, avg derived from sum and count |
| Statistics.Statistic.constructor | src/main/java/com/transactions/store/model/Statistic.java:54-56 | a new Statistic has sum, avg, count and timestamp 0 and absent max and min, and is well formed |
| Statistics.Statistic.Reset | src/main/java/com/transactions/store/model/Statistic.java:57-62 | reset zeroes avg, count, sum and timestamp and leaves max and min as they were |
| Repository.Merged | src/main/java/com/transactions/store/repository/StatisticsRepositoryImpl.java:57-66 | folding a transaction into a bucket sets its timestamp to the transaction's, adds the amount to sum and 1 to count, makes max/min the amount or the old extremum with min <= amount <= max, and recomputes avg from the new sum and count |
| Repository.MergedWellFormed | src/main/java/com/transactions/store/repository/StatisticsRepositoryImpl.java:57-66 | a merge keeps the aggregate invariant and leaves count >= 1 |
| Repository.MergeAmounts | src/main/java/com/transactions/store/repository/StatisticsRepositoryImpl.java:48 | merging a list of amounts raises count by exactly the list's length |
| Repository.MergeAmountsSummary | src/main/java/com/transactions/store/repository/StatisticsRepositoryImpl.java:57-66 | no amount is lost: merging amounts into an empty bucket gives exactly their sum, count, maximum, minimum and average |
| Repository.MergeUpserts | src/main/java/com/transactions/store/repository/StatisticsRepositoryImpl.java:48 | `ConcurrentHashMap.merge` as called here is an upsert: the key set gains the transaction's key, its bucket is the merge into the old bucket or into a fresh Statistic, and every other bucket is unchanged |
| Repository.Evicted | src/main/java/com/transactions/store/repository/StatisticsRepositoryImpl.java:52-54 | eviction keeps exactly the keys with now - k < timeToKeepAlive, with their aggregates unchanged |
| Repository.EvictedBuckets | src/main/java/com/transactions/store/repository/StatisticsRepositoryImpl.java:52-54 | eviction keeps the store invariant |
| Repository.EvictedIdempotent | src/main/java/com/transactions/store/repository/StatisticsRepositoryImpl.java:52-54 | a second eviction with the same now removes nothing |
| Repository.EvictedAllLive | src/main/java/com/transactions/store/repository/StatisticsRepositoryImpl.java:53 | eviction of a store whose buckets are all live changes nothing |
| Repository.EvictedLater | src/main/java/com/transactions/store/repository/StatisticsRepositoryImpl.java:53 | an eviction at a later time subsumes one at an earlier time |
| Repository.SavedEvictsThenMerges | src/main/java/com/transactions/store/repository/StatisticsRepositoryImpl.java:46-49 | `Saved`, the value-level save that both Save methods are specified by: the keys are the surviving keys plus the transaction's, and the transaction's bucket is merged into its old bucket only when that bucket survived the eviction |
| Repository.SavedBuckets | src/main/java/com/transactions/store/repository/StatisticsRepositoryImpl.java:46-49 | save keeps the store invariant, and the transaction's key is present afterwards even when it is older than the window |
| Repository.SavedBucket | src/main/java/com/transactions/store/repository/StatisticsRepositoryImpl.java:46-49 | after save, the transaction's bucket has count old + 1 and sum old + amount if it survived the eviction, else count 1 and sum amount |
| Repository.SavedOthers | src/main/java/com/transactions/store/repository/StatisticsRepositoryImpl.java:46-49 | save changes no other bucket: each other key is either evicted or kept with its aggregate untouched |
| Repository.SaveAll | src/main/java/com/transactions/store/repository/StatisticsRepositoryImpl.java:46-49 | saving a list of amounts into one key at one clock value keeps the store invariant |
| Repository.SaveAllSameKey | src/main/java/com/transactions/store/repository/StatisticsRepositoryImpl.java:46-49 | successive saves into one live bucket lose none of them: the bucket is the old one with every amount merged in, and other buckets are only evicted |
| Repository.StatisticsRepository.constructor | src/main/java/com/transactions/store/repository/StatisticsRepositoryImpl.java:31-33 | a new store is empty and keeps the given window |
| Repository.StatisticsRepository.CleanAllStatistics | src/main/java/com/transactions/store/repository/StatisticsRepositoryImpl.java:36-38 | the map is empty afterwards |
| Repository.StatisticsRepository.GetStatistics | src/main/java/com/transactions/store/repository/StatisticsRepositoryImpl.java:41-43 | returns the current map, which satisfies the store invariant |
| Repository.StatisticsRepository.Save | src/main/java/com/transactions/store/repository/StatisticsRepositoryImpl.java:46-49 | the new map is the old one evicted against currentTime with the transaction merged into its key, and it keeps the store invariant |
| Repository.StatisticsRepository.CleanOldStatistics | src/main/java/com/transactions/store/repository/StatisticsRepositoryImpl.java:52-54 | the loop over the keys leaves exactly the evicted map and keeps the store invariant |
| Repository.StatisticsRepository.UpdateStatistic | src/main/java/com/transactions/store/repository/StatisticsRepositoryImpl.java:57-66 | the setters, in source order, turn the passed Statistic into the merge of its old value with the transaction, and the same object is returned |
| Service.Combine | src/main/java/com/transactions/store/service/TransactionService.java:42-53 | the accumulator keeps the left timestamp, adds sums and counts, and derives avg from the new sum and count (0 when the count is 0) |
| Service.CombineExtrema | src/main/java/com/transactions/store/service/TransactionService.java:45-50 | the combined max/min is absent only when both are, is one of the present values and bounds both |
| Service.CombineZeroLeft | src/main/java/com/transactions/store/model/Statistic.java:54-62 | the fresh Statistic is a left identity of the fold for sum, avg, max, min and count of any well-formed aggregate |
| Service.CombineZeroRight | src/main/java/com/transactions/store/service/TransactionService.java:42-53 | combining with a fresh Statistic on the right changes nothing |
| Service.CombineAssoc | src/main/java/com/transactions/store/service/TransactionService.java:42-53 | the accumulator is associative |
| Service.CombineComm | src/main/java/com/transactions/store/service/TransactionService.java:42-53 | the accumulator is commutative on every statistic but the timestamp |
| Service.CombineRightComm | src/main/java/com/transactions/store/service/TransactionService.java:42-53 | folding two buckets into an accumulator in either order gives the same accumulator |
| Service.CombineWellFormed | src/main/java/com/transactions/store/service/TransactionService.java:42-53 | combining two well-formed aggregates gives a well-formed one |
| Service.SumOfAppend | src/main/java/com/transactions/store/service/TransactionService.java:43 | the sum of a concatenation is the sum of the sums |
| Service.MaxOfAppend | src/main/java/com/transactions/store/service/TransactionService.java:45-47 | the maximum of a concatenation is the null-ignoring max of the maxima |
| Service.MinOfAppend | src/main/java/com/transactions/store/service/TransactionService.java:48-50 | the minimum of a concatenation is the null-ignoring min of the minima |
| Service.CombineSummary | src/main/java/com/transactions/store/service/TransactionService.java:42-53 | combining the summaries of two lists of amounts gives the summary of all of them |
| Service.MergedBucketsCombine | src/main/java/com/transactions/store/service/TransactionService.java:42-53 | combining two buckets built by merging gives the bucket built by merging all their amounts |
| Service.ReduceKeys | src/main/java/com/transactions/store/service/TransactionService.java:42-53 | the fold over any set of buckets has timestamp 0 and its avg derived from its sum and count |
| Service.Reduce | src/main/java/com/transactions/store/service/TransactionService.java:42 | the reduce over all of `values()` starts from a fresh Statistic: timestamp 0, avg derived from its sum and count, and the fresh Statistic itself when there are no buckets |
| Service.ReduceKeysPick | src/main/java/com/transactions/store/service/TransactionService.java:42-53 | the fold is order-independent: any bucket may be taken last |
| Service.ReduceKeysFrame | src/main/java/com/transactions/store/service/TransactionService.java:42-53 | the fold depends only on the buckets it visits |
| Service.ReducePartition | src/main/java/com/transactions/store/service/TransactionService.java:42-53 | folding a disjoint union is combining the two folds |
| Service.ReduceSingle | src/main/java/com/transactions/store/service/TransactionService.java:42-53 | the fold of one well-formed bucket has that bucket's statistics |
| Service.ReduceWellFormed | src/main/java/com/transactions/store/service/TransactionService.java:42-53 | the fold of well-formed buckets is well formed (in particular avg = round(sum/count) or 0) |
| Service.ReduceMax | src/main/java/com/transactions/store/service/TransactionService.java:45-47 | the folded max is absent only when every bucket's is, equals some bucket's max and bounds every present one |
| Service.ReduceMin | src/main/java/com/transactions/store/service/TransactionService.java:48-50 | the folded min is absent only when every bucket's is, equals some bucket's min and is below every present one |
| Service.WindowInclusion | src/main/java/com/transactions/store/service/TransactionService.java:41-42 | after eviction a bucket adds to the statistics exactly when now - k < timeToKeepAlive |
| Service.Accumulate | src/main/java/com/transactions/store/service/TransactionService.java:42-53 | the lambda's setters turn statisticA into the combination of its old value with statisticB and return it |
| Service.ReduceStatistics | src/main/java/com/transactions/store/service/TransactionService.java:42-53 | the loop that folds the buckets, in whatever order it visits them, into one fresh Statistic computes the fold |
| Service.TransactionService.Save | src/main/java/com/transactions/store/service/TransactionService.java:36-38 | the store becomes the saved map for the given now |
| Service.TransactionService.GetStatistics | src/main/java/com/transactions/store/service/TransactionService.java:40-55 | the store is evicted against now and nothing else about it changes; the result is the fold of the live buckets and is well formed |
| Service.TransactionService.DeleteStatistics | src/main/java/com/transactions/store/service/TransactionService.java:57-59 | the store is empty afterwards |
| Converter.RoundBigDecimal | src/main/java/com/transactions/store/controller/util/ConverterUtils.java:95-99 | absent becomes 0.00; otherwise the value rounded half-up to cents, within half a cent of it |
| Converter.AsStatisticDTO | src/main/java/com/transactions/store/controller/util/ConverterUtils.java:42-51 | a null statistic is the only error; otherwise sum, avg, max and min are each `roundBigDecimal` of the matching getter (0.00 for null, else rounded half-up to two decimals), and a null count becomes 0 |
| Converter.EmptyStatisticDTO | src/test/java/com/transactions/store/controller/util/ConverterUtilTest.java:47-53 | a fresh Statistic is reported as all 0.00 with count 0 |
| Converter.WellFormedStatisticDTO | src/main/java/com/transactions/store/controller/util/ConverterUtils.java:42-51 | a well-formed statistic is reported with its own count and average and its sum and extrema rounded, the extrema 0.00 when nothing is live |
| Converter.CheckFutureTransaction | src/main/java/com/transactions/store/controller/util/ConverterUtils.java:83-88 | Future exactly when the instant is strictly after now |
| Converter.CheckPastTransaction | src/main/java/com/transactions/store/controller/util/ConverterUtils.java:89-94 | Stale exactly when the instant is strictly before now - timeToKeepAlive |
| Converter.ParseToDateTimeLong | src/main/java/com/transactions/store/controller/util/ConverterUtils.java:71-82 | null and unparseable timestamps fail first, then Future, then Stale; success exactly inside the closed window, with the epoch second truncated |
| Converter.ParseToBigDecimal | src/main/java/com/transactions/store/controller/util/ConverterUtils.java:61-69 | a null amount is the null error, bad text is Unparseable, otherwise the parsed value |
| Converter.AsTransactionEntity | src/main/java/com/transactions/store/controller/util/ConverterUtils.java:53-59 | a null record fails; an amount error wins over any timestamp error; then the timestamp's outcome; success exactly for a parsed amount and a timestamp in the closed window, with the amount kept and the key the truncated second |
| Converter.WindowEdgesAccepted | src/main/java/com/transactions/store/controller/util/ConverterUtils.java:83-94 | a timestamp equal to now, and one equal to now - timeToKeepAlive, are both accepted |
| Converter.RejectionClasses | src/test/java/com/transactions/store/controller/util/ConverterUtilTest.java:63-94 | 61 s ahead is Future, 61 s back is Stale, bad text is Unparseable, a null record or null amount is the null error, and amount errors come first |
| Converter.AcceptedKeyAge | src/main/java/com/transactions/store/controller/util/ConverterUtils.java:71-94 | an accepted key is between floor(now) - timeToKeepAlive and floor(now) |
| Scenarios.RampSum | src/test/java/com/transactions/store/repository/StatisticsRepositoryTest.java:124-150 | twice the sum of lo, ..., lo + n - 1 is n(2 lo + n - 1) |
| Scenarios.RampExtrema | src/test/java/com/transactions/store/repository/StatisticsRepositoryTest.java:124-150 | the maximum of a ramp is its last amount and the minimum its first |
| Scenarios.EmptyRead | src/test/java/com/transactions/store/service/TransactionServiceTest.java:62-77 | with nothing stored, or after a delete, the statistics are the zero aggregate, reported as 0.00 with count 0 |
| Scenarios.SingleSave | src/test/java/com/transactions/store/repository/StatisticsRepositoryTest.java:53-76 | one save into an empty store makes exactly one bucket, whose sum is the amount |
| Scenarios.TwoSavesSameSecond | src/test/java/com/transactions/store/repository/StatisticsRepositoryTest.java:102-119 | two saves of 100 in one second leave one bucket with sum 200 and count 2 |
| Scenarios.SaveAfterExpiry | src/test/java/com/transactions/store/repository/StatisticsRepositoryTest.java:83-95 | a save more than the window after the first leaves only the second transaction's bucket, whatever its key |
| Scenarios.HundredSavesSameSecond | src/test/java/com/transactions/store/repository/StatisticsRepositoryTest.java:124-150 | saving -1..98 into one second and reading then gives sum 4850, count 100, min -1, max 98, avg 48.50 |
| Scenarios.SeriesStaircase | src/test/java/com/transactions/store/repository/StatisticsRepositoryTest.java:155-160 | saving amount i in second t + i at time t + i evicts nothing while the series is within the window |
| Scenarios.SeriesLateBuckets | src/test/java/com/transactions/store/repository/StatisticsRepositoryTest.java:155-162 | evicting that series at t + 65 under a 60 s window leaves exactly the buckets of amounts 6 to 9 |
| Scenarios.LateBucketsReduce | src/test/java/com/transactions/store/repository/StatisticsRepositoryTest.java:162-180 | folding those four buckets gives sum 30, count 4, min 6, max 9 |
| Scenarios.SeriesThenLateRead | src/test/java/com/transactions/store/repository/StatisticsRepositoryTest.java:154-180 | the series read at t + 65 gives sum 30, count 4, min 6, max 9, avg 7.50 |
| Scenarios.ThreeAmountsRead | src/main/java/com/transactions/store/service/TransactionService.java:40-55 | 10, 20 and -5 saved and read in one second give sum 25, count 3, max 20, min -5 and avg 8.33 |
| Scenarios.ThreeAmountsReport | src/main/java/com/transactions/store/service/TransactionService.java:40-55 | 10, 20 and -5 in one second are reported as sum 25.00, avg 8.33, max 20.00, min -5.00, count 3 |
| Scenarios.EdgeAcceptedThenEvicted | src/main/java/com/transactions/store/repository/StatisticsRepositoryImpl.java:52-54 | a transaction exactly timeToKeepAlive seconds old is accepted by the converter, but its bucket is evicted in that same second |

## Left out

- Concurrency: `ConcurrentHashMap.merge` and `removeIf` run atomically per key, and a test saves in parallel. The model is sequential. The no-lost-update guarantee appears only as its sequential counterpart (`Repository.SaveAllSameKey`, `Scenarios.HundredSavesSameSecond`).
- The wall clock: `now` is a parameter. `parseToDateTimeLong` reads `Instant.now()` once for the Future check and again for the Stale check. The model uses one `now` for both.
- Library parsing: `new BigDecimal(String)` and `ZonedDateTime.parse` are not modelled as string parsers. Their outcome is an input `Field` (null, malformed, or the parsed value).
- Formatting: the two-decimal response strings are the rounded `real` values. Scale-sensitive `BigDecimal.equals` is not modelled.
- Integer width: a `Long` count or timestamp overflowing 64 bits is not modelled, because the integers are unbounded.
- Repository.Merged: requires a count >= 0. At count -1 the source would divide by zero, and no `Statistic` the program builds has a negative count.
- Aliasing: `getStatistics` returns the live map object in the source. Here it returns the map's value, and buckets are values, so the stored buckets are updated by map assignment rather than through shared `Statistic` objects.
- The `timeToKeepAlive` field of `TransactionService`: the service never reads it.
- The Spring wiring, the HTTP controller and its exception-to-status mapping, and the Lombok/Jackson records (`StatisticDTO`, `TransactionDTO`, `Transaction`). They are transport glue; plain datatypes stand in for the records.
