/** One request attempt of the load generator: what the HTTP client returned,
    and the `RequestResult` record `makeRequest` turns it into. The GET itself
    is not modelled; its outcome arrives as a `Response` value, and the dispatch
    instant and elapsed time arrive as plain integers. */
module Outcomes {
  import Decimal

  /** What `client.Get` handed back: an error (timeout, refused connection,
      DNS failure, ...) carrying its text, or a response carrying its status. */
  datatype Response = TransportError(message: string) | Received(statusCode: int)

  /** The record of one attempt. `latency` is the elapsed time in whole
      microseconds; `statusCode` is 0 when no response arrived. */
  datatype RequestResult = RequestResult(
    timestamp: int,
    latency: int,
    statusCode: int,
    success: bool,
    errorMessage: string)

  predicate IsSuccessStatus(code: int) {
    200 <= code < 300
  }

  const HttpPrefix: string := "HTTP "

  /** The error text of a non-2xx response: "HTTP " and the code in decimal. */
  function HttpErrorMessage(code: int): (m: string)
    ensures |m| > |HttpPrefix| && m[..|HttpPrefix|] == HttpPrefix
    ensures Decimal.Canonical(m[|HttpPrefix|..])
    ensures Decimal.ParseInt(m[|HttpPrefix|..]) == code
  {
    var digits := Decimal.IntToString(code);
    var m := HttpPrefix + digits;
    assert m[|HttpPrefix|..] == digits;
    Decimal.ParseIntToString(code);
    m
  }

  /** The contract above pins the text down: any string made of "HTTP " and a
      canonical decimal of `code` is the error text of `code`. */
  lemma HttpErrorMessageExact(m: string, code: int)
    requires |m| > |HttpPrefix| && m[..|HttpPrefix|] == HttpPrefix
    requires Decimal.Canonical(m[|HttpPrefix|..])
    requires Decimal.ParseInt(m[|HttpPrefix|..]) == code
    ensures m == HttpErrorMessage(code)
  {
    Decimal.IntToStringParse(m[|HttpPrefix|..]);
    assert m == HttpPrefix + m[|HttpPrefix|..];
  }

  /** Two non-2xx responses share an error text exactly when they share a code. */
  lemma HttpErrorMessageInjective(a: int, b: int)
    ensures HttpErrorMessage(a) == HttpErrorMessage(b) <==> a == b
  {
  }

  /** The classification half of `makeRequest`. */
  function Classify(response: Response, timestamp: int, latency: int): (r: RequestResult)
    ensures r.timestamp == timestamp && r.latency == latency
    ensures r.success <==> response.Received? && IsSuccessStatus(response.statusCode)
    ensures response.TransportError? ==>
              r.statusCode == 0 && r.errorMessage == response.message
    ensures response.Received? && IsSuccessStatus(response.statusCode) ==>
              r.statusCode == response.statusCode && r.errorMessage == ""
    ensures response.Received? && !IsSuccessStatus(response.statusCode) ==>
              r.statusCode == response.statusCode && r.errorMessage == HttpErrorMessage(response.statusCode)
  {
    match response
    case TransportError(message) =>
      RequestResult(timestamp, latency, 0, false, message)
    case Received(code) =>
      if IsSuccessStatus(code) then RequestResult(timestamp, latency, code, true, "")
      else RequestResult(timestamp, latency, code, false, HttpErrorMessage(code))
  }

  /** Reads back the response a result was classified from. */
  function ResponseOf(r: RequestResult): Response {
    if r.statusCode == 0 then TransportError(r.errorMessage) else Received(r.statusCode)
  }

  /** Classification keeps everything it was given: apart from a response
      carrying status 0 (which an HTTP status line cannot spell), the response
      can be recovered from the result. */
  lemma ClassifyRecoversResponse(response: Response, timestamp: int, latency: int)
    requires response.Received? ==> response.statusCode != 0
    ensures ResponseOf(Classify(response, timestamp, latency)) == response
  {
  }

  /** The error text of a non-2xx response starts with "HTTP " and spells the
      status code the result records. */
  lemma ErrorMessageNamesStatus(response: Response, timestamp: int, latency: int)
    requires response.Received? && !IsSuccessStatus(response.statusCode)
    ensures var r := Classify(response, timestamp, latency);
            && !r.success
            && r.errorMessage[..|HttpPrefix|] == HttpPrefix
            && Decimal.ParseInt(r.errorMessage[|HttpPrefix|..]) == r.statusCode
  {
  }

  /** Number of successful results. */
  function CountSuccesses(rs: seq<RequestResult>): (n: nat)
    ensures n <= |rs|
  {
    if |rs| == 0 then 0
    else CountSuccesses(rs[..|rs| - 1]) + (if rs[|rs| - 1].success then 1 else 0)
  }

  /** Number of failed results. */
  function CountFailures(rs: seq<RequestResult>): (n: nat)
    ensures n <= |rs|
  {
    if |rs| == 0 then 0
    else CountFailures(rs[..|rs| - 1]) + (if rs[|rs| - 1].success then 0 else 1)
  }

  /** Every result is either a success or a failure. */
  lemma {:induction false} CountsPartition(rs: seq<RequestResult>)
    ensures CountSuccesses(rs) + CountFailures(rs) == |rs|
  {
    if |rs| > 0 {
      CountsPartition(rs[..|rs| - 1]);
    }
  }

  /** A list of failures only has no successes. */
  lemma {:induction false} CountsAllFailed(rs: seq<RequestResult>)
    requires forall i :: 0 <= i < |rs| ==> !rs[i].success
    ensures CountSuccesses(rs) == 0 && CountFailures(rs) == |rs|
  {
    if |rs| > 0 {
      CountsAllFailed(rs[..|rs| - 1]);
    }
  }

  /** Number of results that carry a positive status code. */
  function CountWithStatus(rs: seq<RequestResult>): (n: nat)
    ensures n <= |rs|
  {
    if |rs| == 0 then 0
    else CountWithStatus(rs[..|rs| - 1]) + (if rs[|rs| - 1].statusCode > 0 then 1 else 0)
  }

  /** A list whose every result carries a positive status counts all of them. */
  lemma {:induction false} CountsAllWithStatus(rs: seq<RequestResult>)
    requires forall i :: 0 <= i < |rs| ==> rs[i].statusCode > 0
    ensures CountWithStatus(rs) == |rs|
  {
    if |rs| > 0 {
      CountsAllWithStatus(rs[..|rs| - 1]);
    }
  }

  /** A list whose results carry no positive status counts none of them. */
  lemma {:induction false} CountsNoStatus(rs: seq<RequestResult>)
    requires forall i :: 0 <= i < |rs| ==> rs[i].statusCode <= 0
    ensures CountWithStatus(rs) == 0
  {
    if |rs| > 0 {
      CountsNoStatus(rs[..|rs| - 1]);
    }
  }
}
