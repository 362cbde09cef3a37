/** The load generator's shared run state: three running counters and the list
    of results, together with the bookkeeping half of `makeRequest`. The model
    is sequential: each attempt's counter bumps and its append happen as one
    step, so the counters always agree with the list. */
module Aggregation {
  import opened Outcomes

  /** The counters and result list of `LoadGenerator`. */
  datatype Aggregator = Aggregator(
    totalRequests: int,
    successCount: int,
    failedCount: int,
    results: seq<RequestResult>)

  /** The agreement a sequential run keeps between counters and list: one
      result per request, and each counter counts its kind of result. */
  predicate Valid(a: Aggregator) {
    && |a.results| == a.totalRequests
    && a.successCount == CountSuccesses(a.results)
    && a.failedCount == CountFailures(a.results)
  }

  /** In an agreeing state every request is counted exactly once, as a success
      or as a failure. */
  lemma ValidCountersAgree(a: Aggregator)
    requires Valid(a)
    ensures a.totalRequests == a.successCount + a.failedCount
    ensures 0 <= a.successCount <= a.totalRequests
  {
    CountsPartition(a.results);
  }

  /** The state `NewLoadGenerator` starts from. */
  function NewAggregator(): (a: Aggregator)
    ensures a.results == [] && Valid(a)
  {
    Aggregator(0, 0, 0, [])
  }

  /** `makeRequest` after the GET returned `response`: the result is classified,
      the failure or success counter is bumped by branch, then the total, then
      the result is appended. Returns the new state and the result. */
  function MakeRequest(a: Aggregator, response: Response, timestamp: int, latency: int)
    : (out: (Aggregator, RequestResult))
    ensures out.1 == Classify(response, timestamp, latency)
    ensures out.0.totalRequests == a.totalRequests + 1
    ensures out.1.success ==>
              out.0.successCount == a.successCount + 1 && out.0.failedCount == a.failedCount
    ensures !out.1.success ==>
              out.0.failedCount == a.failedCount + 1 && out.0.successCount == a.successCount
    ensures out.0.results == a.results + [out.1]
  {
    var result := Classify(response, timestamp, latency);
    var counted :=
      match response
      case TransportError(_) => a.(failedCount := a.failedCount + 1)
      case Received(code) =>
        if IsSuccessStatus(code) then a.(successCount := a.successCount + 1)
        else a.(failedCount := a.failedCount + 1);
    (counted.(totalRequests := counted.totalRequests + 1, results := counted.results + [result]), result)
  }

  lemma CountsOfAppend(rs: seq<RequestResult>, r: RequestResult)
    ensures CountSuccesses(rs + [r]) == CountSuccesses(rs) + (if r.success then 1 else 0)
    ensures CountFailures(rs + [r]) == CountFailures(rs) + (if r.success then 0 else 1)
  {
    assert (rs + [r])[..|rs|] == rs;
  }

  /** Recording an attempt keeps counters and list in agreement. */
  lemma MakeRequestPreservesValid(a: Aggregator, response: Response, timestamp: int, latency: int)
    requires Valid(a)
    ensures Valid(MakeRequest(a, response, timestamp, latency).0)
  {
    CountsOfAppend(a.results, Classify(response, timestamp, latency));
  }

  /** One completed attempt, as the run's goroutine saw it. */
  datatype Attempt = Attempt(response: Response, timestamp: int, latency: int)

  /** The results of `attempts`, in order. */
  function ClassifyAll(attempts: seq<Attempt>): (rs: seq<RequestResult>)
    ensures |rs| == |attempts|
    ensures forall i :: 0 <= i < |attempts| ==>
              rs[i] == Classify(attempts[i].response, attempts[i].timestamp, attempts[i].latency)
  {
    if |attempts| == 0 then []
    else
      var last := attempts[|attempts| - 1];
      ClassifyAll(attempts[..|attempts| - 1]) + [Classify(last.response, last.timestamp, last.latency)]
  }

  /** Number of attempts answered with a 2xx status. */
  function CountAnswered2xx(attempts: seq<Attempt>): (n: nat)
    ensures n <= |attempts|
  {
    if |attempts| == 0 then 0
    else
      var last := attempts[|attempts| - 1].response;
      CountAnswered2xx(attempts[..|attempts| - 1])
        + (if last.Received? && IsSuccessStatus(last.statusCode) then 1 else 0)
  }

  lemma RecordStep(attempts: seq<Attempt>, i: nat)
    requires i < |attempts|
    ensures var at := attempts[i];
            && ClassifyAll(attempts[..i + 1])
                 == ClassifyAll(attempts[..i]) + [Classify(at.response, at.timestamp, at.latency)]
            && CountAnswered2xx(attempts[..i + 1]) == CountAnswered2xx(attempts[..i])
                 + (if at.response.Received? && IsSuccessStatus(at.response.statusCode) then 1 else 0)
  {
    assert attempts[..i + 1][..i] == attempts[..i];
  }

  /** A run whose attempts complete one after another, in the order given:
      `makeRequest` is applied to each in turn, starting from a fresh state. */
  method RecordAll(attempts: seq<Attempt>) returns (a: Aggregator)
    ensures Valid(a) && a.totalRequests == a.successCount + a.failedCount
    ensures a.results == ClassifyAll(attempts)
    ensures a.totalRequests == |attempts|
    ensures a.successCount == CountAnswered2xx(attempts)
  {
    a := NewAggregator();
    var i := 0;
    while i < |attempts|
      invariant 0 <= i <= |attempts|
      invariant Valid(a)
      invariant a.results == ClassifyAll(attempts[..i])
      invariant a.successCount == CountAnswered2xx(attempts[..i])
    {
      var at := attempts[i];
      RecordStep(attempts, i);
      MakeRequestPreservesValid(a, at.response, at.timestamp, at.latency);
      a := MakeRequest(a, at.response, at.timestamp, at.latency).0;
      i := i + 1;
    }
    assert attempts[..i] == attempts;
    ValidCountersAgree(a);
  }
}
