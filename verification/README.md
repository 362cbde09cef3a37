# Load generator: outcome classification and report statistics

This project models the load generator's result handling in `load-generator/main.go`:

- how `makeRequest` turns what the HTTP client returned into a `RequestResult`;
- how each outcome bumps the run's counters and is appended to the result list;
- how `GenerateReport` derives the report from the run state: it copies the counters, tallies error texts and status codes in one pass, sorts the latencies, and takes min, max and the four percentiles;
- the index-based `percentile` rule.

The model is sequential and pure. Everything is a function or a short method over immutable datatypes.

Modules, one per concern:

- `Decimal`: the `%d` rendering used in the "HTTP <code>" error text, with a parser so the rendering can be shown to lose nothing.
- `Outcomes`: `Response` (transport error text, or a received status code), `RequestResult`, and the classification.
- `Aggregation`: the counters-plus-list state (`Aggregator`), the bookkeeping step of `makeRequest`, and a sequential replay of many attempts.
- `Tallies`: Go's `m[k]++` on a map whose missing keys read as zero, the one-pass tally, and the sum of a map's counts.
- `Sorting`: the ascending permutation that `sort.Float64s` produces.
- `Percentiles`: the index rule `min(floor(N * p / 100), N - 1)`, with 0 for an empty list.
- `Reports`: the `Report` record, the single scan over the results, `GenerateReport`, and two whole-run scenarios: every request gets the same non-2xx status, or the target is unreachable.

Modelling choices:

- Latencies are integer microseconds. The source reads `Duration.Microseconds()` and then divides by 1000.0. That division only changes the unit, so the model does not perform it.
- The report keeps the integer latency total, which is the numerator of the mean, instead of the floating-point mean.
- For an integer `p` between 0 and 100, the source's `int(float64(N) * p / 100.0)` is the integer `N * p / 100`. This holds for every N a run can reach. The source only calls `percentile` with 50, 90, 95 and 99.
- The dispatch timestamp and the elapsed time come from the clock. The HTTP response comes from the network. All three are parameters of `Classify` and `MakeRequest`.

`main` does not reject a non-positive rate (`main.go:314, 341-347`) and `Run` divides by it directly (`main.go:120`); `Run` is not part of this model, so no validation is modelled.

## Model

| member | source | states |
|---|---|---|
| Decimal.NatToString | load-generator/main.go:99 | the digits `%d` prints for a natural number: non-empty, all digits, no leading zero |
| Decimal.IntToString | load-generator/main.go:99 | the `%d` text of any int is canonical: digits after an optional '-', no leading zero, never "-0"; it starts with '-' exactly when the number is negative |
| Decimal.ParseIntToString | load-generator/main.go:99 | parsing the `%d` text gives back the number, for every int |
| Decimal.IntToStringParse | load-generator/main.go:99 | every canonical string is the `%d` text of the number it parses to, so canonical form plus value fix the text |
| Decimal.IntToStringInjective | load-generator/main.go:99 | two ints have the same `%d` text if and only if they are equal |
| Outcomes.HttpErrorMessage | load-generator/main.go:99 | the error text of a non-2xx response is "HTTP " followed by a canonical decimal (no leading zero) that parses back to the status code |
| Outcomes.HttpErrorMessageExact | load-generator/main.go:99 | any string made of "HTTP " and a canonical decimal of the code is exactly the error text of that code, so the contract above determines the text `Sprintf("HTTP %d", …)` produces |
| Outcomes.HttpErrorMessageInjective | load-generator/main.go:99 | two status codes give the same error text if and only if they are the same code, so ErrorDetails keeps distinct codes apart |
| Outcomes.Classify | load-generator/main.go:76-101 | success holds if and only if a response arrived with status in [200,300). A transport error gives status 0 and the error's own text. A 2xx response records its status with an empty error text. Any other status is recorded with the text "HTTP <code>". Timestamp and latency are kept |
| Outcomes.ClassifyRecoversResponse | load-generator/main.go:85-100 | classification loses nothing: the response can be read back from the result, for every response whose status is not 0 |
| Outcomes.ErrorMessageNamesStatus | load-generator/main.go:97-100 | a non-2xx result is a failure, and its error text starts with "HTTP " and parses to the recorded status |
| Outcomes.CountsPartition | load-generator/main.go:85-101 | each result counts as exactly one of success and failure, so the two counts add up to the number of results |
| Aggregation.NewAggregator | load-generator/main.go:66-74 | a new generator starts with an empty result list and counters that agree with it |
| Aggregation.MakeRequest | load-generator/main.go:76-111 | one attempt adds exactly 1 to the total. It adds 1 to the success counter and leaves the failure counter alone when the result is a success, and the reverse otherwise. It appends exactly the classified result and returns it |
| Aggregation.MakeRequestPreservesValid | load-generator/main.go:85-108 | recording an attempt preserves the agreement: one result per request, the success counter equals the number of successful results, and the failure counter equals the number of failed ones |
| Aggregation.ValidCountersAgree | load-generator/main.go:85-104 | when the counters agree with the list, total == success + failed and success is at most total |
| Aggregation.RecordAll | load-generator/main.go:104-108 | after attempts finish one by one from a fresh state, the list holds the classified results in order, the counters agree with it, the total equals the number of attempts, and the success counter equals the number of attempts answered with a 2xx status |
| Tallies.Bump | load-generator/main.go:219 | `m[k]++` adds k to the keys, adds one to k's count (a missing key counts as zero), and leaves every other key alone |
| Tallies.Tally | load-generator/main.go:213-224 | the map built by one pass has exactly the keys that occur in the list, and each key's count is its multiplicity |
| Tallies.TallySum | load-generator/main.go:213-224 | the counts of a tally add up to the length of the list it was built from |
| Tallies.MapSumBump | load-generator/main.go:219 | one increment raises the sum of a map's counts by exactly one |
| Tallies.TallyOfRepeated | load-generator/main.go:218-223 | a list made of n copies of one key tallies to the single entry key → n |
| Sorting.Insert | load-generator/main.go:226 | inserting into an ascending list keeps it ascending, adds exactly the one value, and puts the smaller of the value and the old head first |
| Sorting.Sort | load-generator/main.go:226 | the sorted latencies are ascending and are a permutation of the input (same multiset) |
| Sorting.SortExtremes | load-generator/main.go:226-229 | the first and last sorted elements both occur in the input, and they are at most and at least every input value, i.e. its minimum and maximum |
| Sorting.SortedUnique | load-generator/main.go:226 | two ascending lists with the same multiset are equal, so ascending order plus permutation pins down the sort's output |
| Percentiles.PercentileIndex | load-generator/main.go:248-251 | the clamped index is always inside the list |
| Percentiles.Percentile | load-generator/main.go:244-253 | an empty list gives 0; on a non-empty list the result is always one of its elements |
| Percentiles.PercentileIndexCases | load-generator/main.go:248-251 | below 100 no clamping happens and the index is floor(N·p/100); p = 0 gives index 0; p ≥ 100 gives index N-1 |
| Percentiles.PercentileIndexMonotone | load-generator/main.go:248-251 | a larger p never gives an earlier index |
| Percentiles.PercentileMonotone | load-generator/main.go:244-253 | on an ascending list the percentile never decreases as p grows |
| Percentiles.PercentileEnds | load-generator/main.go:244-253 | percentile 0 is the first element and any p ≥ 100 is the last |
| Percentiles.PercentileRank | load-generator/main.go:244-253 | on an ascending list every percentile lies between the first and last element, every element at or before its index is at most the percentile, and every element from its index on is at least the percentile |
| Reports.Latencies | load-generator/main.go:213-215 | one latency per result, in the same order |
| Reports.ErrorKeys | load-generator/main.go:218-220 | the keys fed into ErrorDetails are the failures' texts: a text occurs if and only if some failed result carries it |
| Reports.ErrorKeysCount | load-generator/main.go:218-220 | there is one error key per failed result |
| Reports.StatusKeys | load-generator/main.go:221-223 | the keys fed into StatusCodeDist are the positive status codes: a code occurs if and only if it is positive and some result carries it, whether that result succeeded or failed |
| Reports.StatusKeysCount | load-generator/main.go:221-223 | there is one status key per result with status > 0 |
| Reports.SumBounds | load-generator/main.go:216-230 | a total of N values that all lie in [lo, hi] lies in [lo·N, hi·N], which bounds the mean by min and max |
| Reports.ScanStepGathers | load-generator/main.go:212-223 | one iteration of the pass (append the latency, add it to the total, bump the error text when the result failed, bump the status when it is positive) turns what was gathered from a prefix of the results into what is gathered from the prefix one longer |
| Reports.ScanResults | load-generator/main.go:209-224 | the single pass collects every latency and their total, and builds ErrorDetails and StatusCodeDist as the tallies of the failures' texts and of the positive status codes |
| Reports.Summarize | load-generator/main.go:226-234 | the latency block of a non-empty run: Min and Max occur among the latencies and are their least and greatest, Min ≤ P50 ≤ P90 ≤ P95 ≤ P99 ≤ Max, each percentile is one of the latencies, and the total lies between Min·N and Max·N |
| Reports.TallySums | load-generator/main.go:216-224 | the error counts add up to the number of failed results, the status counts add up to the number of results with status > 0, and status 0 is never a key |
| Reports.DistributionsMatchCounters | load-generator/main.go:189-224 | when counters and list agree, the error counts add up to the failed counter, errors plus successes make up the total, and the status counts never exceed the total |
| Reports.GenerateReport | load-generator/main.go:189-242 | the three counters are copied unchanged. ErrorDetails and StatusCodeDist are the tallies of the failures' texts and of the positive status codes (whose sums `Reports.TallySums` gives), and status 0 never appears. An empty list leaves every latency statistic 0 and both maps empty. Otherwise the latency block is the summary of the latencies in result order |
| Reports.AllHttpErrorRun | load-generator/main.go:94-100 | if every request gets the same non-2xx status c, no request succeeds, ErrorDetails is {"HTTP c": N} and StatusCodeDist is {c: N} |
| Reports.UnreachableRun | load-generator/main.go:85-88 | if no request reaches the target, no request succeeds, StatusCodeDist is empty, the error counts add up to N, and every error key is some transport error's text |

## Left out

- `Run` (main.go:113-187) is left out because it is concurrency and timing. This covers the ticker, the goroutine launched per tick, signal handling, the 2-second grace sleep, and the progress reporter.
- The HTTP GET and the body drain (main.go:82, 90-91) are I/O. The response they produce is an input value.
- The concurrent race between a counter bump (main.go:88, 96, 100, 104) and the append (main.go:107) is not modelled. Neither are stragglers that finish after the grace period. Under concurrency the counters can run ahead of the result list; the model is sequential, so they always agree.
- The float arithmetic is left out: the millisecond rescale, `LatencyMean`, and `RequestsPerSec` (main.go:214, 230, 236-239). The integer latency total stands in for the mean.
- The config, start/end times and the `TotalDuration` string that the report copies (main.go:194-200) are left out, because they are copied through unchanged or come from the clock.
- `PrintReport` and `SaveReport` are left out: they are formatting and JSON/file output.
- `parseDuration` and `main` are left out: they handle CLI flags on top of `time.ParseDuration`, which is not part of this model.
- The HTTP services under go-service/ and java-service/ are left out: they are request/response glue with no aggregation logic.
- Aggregation.MakeRequest: the counters are unbounded integers. The source's `int64` counters would wrap only after 2^63 requests.
- Percentiles.Percentile: `p` is a natural number. Negative or fractional `p` is not modelled, and neither is float64 rounding of `N * p / 100` for N beyond about 2^46. The source only passes 50, 90, 95 and 99.
