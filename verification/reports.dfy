/** `GenerateReport`: from the run state to the report's counters, latency
    statistics and the two distributions. Latencies stay in integer
    microseconds; the report keeps the latency total (the numerator of the
    mean) in place of the floating-point mean. */
module Reports {
  import opened Outcomes
  import opened Aggregation
  import opened Tallies
  import opened Sorting
  import opened Percentiles

  /** The report's latency fields, in microseconds, plus the latency total. */
  datatype LatencyStats = LatencyStats(
    min: int,
    max: int,
    p50: int,
    p90: int,
    p95: int,
    p99: int,
    total: int)

  /** What the latency fields hold when no result was collected. */
  const NoLatencies := LatencyStats(0, 0, 0, 0, 0, 0, 0)

  datatype Report = Report(
    totalRequests: int,
    successRequests: int,
    failedRequests: int,
    latency: LatencyStats,
    errorDetails: map<string, nat>,
    statusCodeDist: map<int, nat>)

  /** The latencies of the results, in list order. */
  function Latencies(rs: seq<RequestResult>): (lats: seq<int>)
    ensures |lats| == |rs|
    ensures forall i :: 0 <= i < |rs| ==> lats[i] == rs[i].latency
  {
    seq(|rs|, i requires 0 <= i < |rs| => rs[i].latency)
  }

  /** The error texts of the failed results, in list order: the keys the report
      tallies into `ErrorDetails`. */
  function ErrorKeys(rs: seq<RequestResult>): (keys: seq<string>)
    ensures forall k :: k in keys <==>
              exists i :: 0 <= i < |rs| && !rs[i].success && rs[i].errorMessage == k
  {
    if |rs| == 0 then []
    else
      var init, last := rs[..|rs| - 1], rs[|rs| - 1];
      assert forall i :: 0 <= i < |init| ==> init[i] == rs[i];
      ErrorKeys(init) + (if last.success then [] else [last.errorMessage])
  }

  /** The positive status codes of the results, in list order: the keys the
      report tallies into `StatusCodeDist`. */
  function StatusKeys(rs: seq<RequestResult>): (keys: seq<int>)
    ensures forall c :: c in keys <==>
              c > 0 && exists i :: 0 <= i < |rs| && rs[i].statusCode == c
  {
    if |rs| == 0 then []
    else
      var init, last := rs[..|rs| - 1], rs[|rs| - 1];
      assert forall i :: 0 <= i < |init| ==> init[i] == rs[i];
      StatusKeys(init) + (if last.statusCode > 0 then [last.statusCode] else [])
  }

  /** One error key per failed result. */
  lemma {:induction false} ErrorKeysCount(rs: seq<RequestResult>)
    ensures |ErrorKeys(rs)| == CountFailures(rs)
  {
    if |rs| > 0 {
      ErrorKeysCount(rs[..|rs| - 1]);
    }
  }

  /** One status key per result with a positive status. */
  lemma {:induction false} StatusKeysCount(rs: seq<RequestResult>)
    ensures |StatusKeys(rs)| == CountWithStatus(rs)
  {
    if |rs| > 0 {
      StatusKeysCount(rs[..|rs| - 1]);
    }
  }

  function Sum(xs: seq<int>): int {
    if |xs| == 0 then 0 else Sum(xs[..|xs| - 1]) + xs[|xs| - 1]
  }

  /** A total of values that all lie in `[lo, hi]` lies in `[lo * N, hi * N]`:
      the mean is bounded by the least and the greatest latency. */
  lemma {:induction false} SumBounds(xs: seq<int>, lo: int, hi: int)
    requires forall i :: 0 <= i < |xs| ==> lo <= xs[i] <= hi
    ensures lo * |xs| <= Sum(xs) <= hi * |xs|
  {
    if |xs| > 0 {
      var init := xs[..|xs| - 1];
      SumBounds(init, lo, hi);
      assert lo * |xs| == lo * |init| + lo;
      assert hi * |xs| == hi * |init| + hi;
    }
  }

  /** A run in which the target answers every request with the same non-2xx
      status `code`: no success, the error distribution is the single entry
      "HTTP <code>" counting every request, and the status distribution is the
      single entry `code` counting every request. */
  lemma {:induction false} AllHttpErrorRun(attempts: seq<Attempt>, code: int)
    requires |attempts| > 0 && code > 0 && !IsSuccessStatus(code)
    requires forall i :: 0 <= i < |attempts| ==> attempts[i].response == Received(code)
    ensures var rs := ClassifyAll(attempts);
            && CountSuccesses(rs) == 0
            && Tally(ErrorKeys(rs)) == map[HttpErrorMessage(code) := |attempts|]
            && Tally(StatusKeys(rs)) == map[code := |attempts|]
  {
    var rs := ClassifyAll(attempts);
    assert forall i :: 0 <= i < |rs| ==>
      !rs[i].success && rs[i].statusCode == code && rs[i].errorMessage == HttpErrorMessage(code);
    CountsAllFailed(rs);
    CountsAllWithStatus(rs);
    ErrorKeysCount(rs);
    StatusKeysCount(rs);
    var errs, codes := ErrorKeys(rs), StatusKeys(rs);
    assert forall j :: 0 <= j < |errs| ==> errs[j] == HttpErrorMessage(code) by {
      forall j | 0 <= j < |errs|
        ensures errs[j] == HttpErrorMessage(code)
      {
        assert errs[j] in errs;
      }
    }
    assert forall j :: 0 <= j < |codes| ==> codes[j] == code by {
      forall j | 0 <= j < |codes|
        ensures codes[j] == code
      {
        assert codes[j] in codes;
      }
    }
    TallyOfRepeated(errs, HttpErrorMessage(code));
    TallyOfRepeated(codes, code);
  }

  /** A run in which no request reaches the target: no success, an empty
      status distribution, and every error text is some transport error's. */
  lemma {:induction false} UnreachableRun(attempts: seq<Attempt>)
    requires forall i :: 0 <= i < |attempts| ==> attempts[i].response.TransportError?
    ensures var rs := ClassifyAll(attempts);
            && CountSuccesses(rs) == 0
            && MapSum(Tally(ErrorKeys(rs))) == |attempts|
            && Tally(StatusKeys(rs)) == map[]
            && forall k :: k in Tally(ErrorKeys(rs)) ==>
                 exists i :: 0 <= i < |attempts| && attempts[i].response.message == k
  {
    var rs := ClassifyAll(attempts);
    assert forall i :: 0 <= i < |rs| ==> !rs[i].success && rs[i].statusCode == 0;
    CountsAllFailed(rs);
    CountsNoStatus(rs);
    ErrorKeysCount(rs);
    StatusKeysCount(rs);
    TallySum(ErrorKeys(rs));
  }

  lemma ErrorKeysSnoc(rs: seq<RequestResult>, r: RequestResult)
    ensures ErrorKeys(rs + [r]) == ErrorKeys(rs) + (if r.success then [] else [r.errorMessage])
  {
    assert (rs + [r])[..|rs|] == rs;
  }

  lemma StatusKeysSnoc(rs: seq<RequestResult>, r: RequestResult)
    ensures StatusKeys(rs + [r]) == StatusKeys(rs) + (if r.statusCode > 0 then [r.statusCode] else [])
  {
    assert (rs + [r])[..|rs|] == rs;
  }

  lemma SumSnoc(xs: seq<int>, x: int)
    ensures Sum(xs + [x]) == Sum(xs) + x
  {
    assert (xs + [x])[..|xs|] == xs;
  }

  /** The latency statistics of a non-empty list, as the report fills them in:
      min and max from the ends of the ascending list, then four percentiles;
      and the latency total lies between `min * N` and `max * N`. */
  lemma LatencyStatsOrdered(lats: seq<int>)
    requires |lats| > 0
    ensures var sorted := Sort(lats);
            && sorted[0] in lats && sorted[|sorted| - 1] in lats
            && (forall x :: x in lats ==> sorted[0] <= x <= sorted[|sorted| - 1])
            && sorted[0] <= Percentile(sorted, 50) <= Percentile(sorted, 90)
            && Percentile(sorted, 90) <= Percentile(sorted, 95) <= Percentile(sorted, 99)
            && Percentile(sorted, 99) <= sorted[|sorted| - 1]
            && Percentile(sorted, 50) in lats && Percentile(sorted, 90) in lats
            && Percentile(sorted, 95) in lats && Percentile(sorted, 99) in lats
            && sorted[0] * |lats| <= Sum(lats) <= sorted[|sorted| - 1] * |lats|
  {
    var sorted := Sort(lats);
    SortExtremes(lats);
    forall j | 0 <= j < |lats|
      ensures sorted[0] <= lats[j] <= sorted[|sorted| - 1]
    {
      assert lats[j] in lats;
    }
    SumBounds(lats, sorted[0], sorted[|sorted| - 1]);
    PercentileEnds(sorted, 100);
    PercentileMonotone(sorted, 0, 50);
    PercentileMonotone(sorted, 50, 90);
    PercentileMonotone(sorted, 90, 95);
    PercentileMonotone(sorted, 95, 99);
    PercentileMonotone(sorted, 99, 100);
    forall p: nat | p in {50, 90, 95, 99}
      ensures Percentile(sorted, p) in lats
    {
      assert Percentile(sorted, p) in multiset(sorted);
    }
  }

  /** The latency statistics of a non-empty list: min and max are the ends of
      the ascending list, the percentiles are read from it by index, and the
      total is the sum. */
  function Summarize(lats: seq<int>): (s: LatencyStats)
    requires |lats| > 0
    ensures s.min in lats && s.max in lats
    ensures forall x :: x in lats ==> s.min <= x <= s.max
    ensures s.min <= s.p50 <= s.p90 <= s.p95 <= s.p99 <= s.max
    ensures s.p50 in lats && s.p90 in lats && s.p95 in lats && s.p99 in lats
    ensures s.min * |lats| <= s.total <= s.max * |lats|
  {
    LatencyStatsOrdered(lats);
    var sorted := Sort(lats);
    LatencyStats(
      sorted[0], sorted[|sorted| - 1],
      Percentile(sorted, 50), Percentile(sorted, 90),
      Percentile(sorted, 95), Percentile(sorted, 99),
      Sum(lats))
  }

  /** The counts of the two distributions add up to the number of failures and
      to the number of results with a positive status; status 0 is never a key. */
  lemma TallySums(rs: seq<RequestResult>)
    ensures MapSum(Tally(ErrorKeys(rs))) == CountFailures(rs)
    ensures MapSum(Tally(StatusKeys(rs))) == CountWithStatus(rs)
    ensures forall c :: c in Tally(StatusKeys(rs)) ==> c > 0
  {
    ErrorKeysCount(rs);
    StatusKeysCount(rs);
    TallySum(ErrorKeys(rs));
    TallySum(StatusKeys(rs));
  }

  /** When counters and list agree, the error distribution counts exactly the
      failed counter, the status distribution counts at most the total, and
      errors plus successes account for every request. */
  lemma DistributionsMatchCounters(a: Aggregator)
    requires Valid(a)
    ensures MapSum(Tally(ErrorKeys(a.results))) == a.failedCount
    ensures MapSum(Tally(ErrorKeys(a.results))) + a.successCount == a.totalRequests
    ensures MapSum(Tally(StatusKeys(a.results))) <= a.totalRequests
  {
    TallySums(a.results);
    ValidCountersAgree(a);
  }

  lemma LatencyStep(rs: seq<RequestResult>, i: nat)
    requires i < |rs|
    ensures Latencies(rs[..i + 1]) == Latencies(rs[..i]) + [rs[i].latency]
    ensures Sum(Latencies(rs[..i + 1])) == Sum(Latencies(rs[..i])) + rs[i].latency
  {
    assert Latencies(rs[..i + 1]) == Latencies(rs[..i]) + [rs[i].latency];
    SumSnoc(Latencies(rs[..i]), rs[i].latency);
  }

  lemma ErrorTallyStep(rs: seq<RequestResult>, i: nat)
    requires i < |rs|
    ensures Tally(ErrorKeys(rs[..i + 1])) ==
              if rs[i].success then Tally(ErrorKeys(rs[..i]))
              else Bump(Tally(ErrorKeys(rs[..i])), rs[i].errorMessage)
  {
    assert rs[..i + 1] == rs[..i] + [rs[i]];
    ErrorKeysSnoc(rs[..i], rs[i]);
    if !rs[i].success {
      TallySnoc(ErrorKeys(rs[..i]), rs[i].errorMessage);
    } else {
      assert ErrorKeys(rs[..i + 1]) == ErrorKeys(rs[..i]);
    }
  }

  lemma StatusTallyStep(rs: seq<RequestResult>, i: nat)
    requires i < |rs|
    ensures Tally(StatusKeys(rs[..i + 1])) ==
              if rs[i].statusCode > 0 then Bump(Tally(StatusKeys(rs[..i])), rs[i].statusCode)
              else Tally(StatusKeys(rs[..i]))
  {
    assert rs[..i + 1] == rs[..i] + [rs[i]];
    StatusKeysSnoc(rs[..i], rs[i]);
    if rs[i].statusCode > 0 {
      TallySnoc(StatusKeys(rs[..i]), rs[i].statusCode);
    } else {
      assert StatusKeys(rs[..i + 1]) == StatusKeys(rs[..i]);
    }
  }

  /** What the single pass of `GenerateReport` has gathered so far: the
      latencies in order, their total, and the two distributions. */
  datatype Scan = Scan(
    latencies: seq<int>,
    total: int,
    errors: map<string, nat>,
    statuses: map<int, nat>)

  /** One iteration of the pass: record the latency, add it to the total,
      bump the error text of a failure, bump a positive status code. */
  function ScanStep(s: Scan, r: RequestResult): Scan {
    Scan(
      s.latencies + [r.latency],
      s.total + r.latency,
      if !r.success then Bump(s.errors, r.errorMessage) else s.errors,
      if r.statusCode > 0 then Bump(s.statuses, r.statusCode) else s.statuses)
  }

  /** What the pass must have gathered from `rs`, stated without the pass. */
  function Gathered(rs: seq<RequestResult>): Scan {
    Scan(Latencies(rs), Sum(Latencies(rs)), Tally(ErrorKeys(rs)), Tally(StatusKeys(rs)))
  }

  /** One more iteration extends what was gathered by the next result. */
  lemma ScanStepGathers(rs: seq<RequestResult>, i: nat)
    requires i < |rs|
    ensures Gathered(rs[..i + 1]) == ScanStep(Gathered(rs[..i]), rs[i])
  {
    LatencyStep(rs, i);
    ErrorTallyStep(rs, i);
    StatusTallyStep(rs, i);
  }

  /** The single pass of `GenerateReport` over the results: collects every
      latency and their total, tallies the error texts of failures and the
      positive status codes. */
  method ScanResults(rs: seq<RequestResult>)
    returns (latencies: seq<int>, total: int, errors: map<string, nat>, statuses: map<int, nat>)
    ensures latencies == Latencies(rs)
    ensures total == Sum(latencies)
    ensures errors == Tally(ErrorKeys(rs))
    ensures statuses == Tally(StatusKeys(rs))
  {
    var scan := Scan([], 0, map[], map[]);
    var i := 0;
    while i < |rs|
      invariant 0 <= i <= |rs|
      invariant scan == Gathered(rs[..i])
    {
      ScanStepGathers(rs, i);
      scan := ScanStep(scan, rs[i]);
      i := i + 1;
    }
    assert rs[..i] == rs;
    latencies, total, errors, statuses := scan.latencies, scan.total, scan.errors, scan.statuses;
  }

  /** `GenerateReport`: counters copied; an empty result list returns at once
      with every latency field 0 and both distributions empty; otherwise one
      scan of the results, the sort, the ends of the sorted list and the four
      percentiles. */
  method GenerateReport(a: Aggregator) returns (report: Report)
    ensures report.totalRequests == a.totalRequests
    ensures report.successRequests == a.successCount
    ensures report.failedRequests == a.failedCount
    ensures report.errorDetails == Tally(ErrorKeys(a.results))
    ensures report.statusCodeDist == Tally(StatusKeys(a.results))
    ensures forall c :: c in report.statusCodeDist ==> c > 0
    ensures |a.results| == 0 ==>
              report.latency == NoLatencies && report.errorDetails == map[] && report.statusCodeDist == map[]
    ensures |a.results| > 0 ==> report.latency == Summarize(Latencies(a.results))
  {
    if |a.results| == 0 {
      return Report(a.totalRequests, a.successCount, a.failedCount, NoLatencies, map[], map[]);
    }

    var latencies, total, errors, statuses := ScanResults(a.results);
    var sorted := Sort(latencies);
    var stats := LatencyStats(
      sorted[0], sorted[|sorted| - 1],
      Percentile(sorted, 50), Percentile(sorted, 90),
      Percentile(sorted, 95), Percentile(sorted, 99),
      total);
    report := Report(a.totalRequests, a.successCount, a.failedCount, stats, errors, statuses);
  }

}
