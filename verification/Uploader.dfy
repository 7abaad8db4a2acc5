/** The upload retry loop against an arbitrary server: doubling back-off, Retry-After override,
    early exit on success and on authentication errors. */
module Uploader {
  import opened Collections
  import opened Numbers

  /** What comes back for one request. */
  datatype Response =
    | TransportError(reason: string)
    | Http(status: nat, retryAfter: Option<string>, body: string)

  // Durations are counted in nanoseconds.
  type Duration = nat

  const SECOND: Duration := 1_000_000_000
  const MAX_DURATION: Duration := U64_LIMIT * SECOND - 1

  datatype UploaderError =
    | RequestError(reason: string)
    | ServerError(status: nat, message: string)
    | RateLimited(retryAfter: Option<Duration>)
    | AuthError(message: string)
    | SerializationError
    | MaxRetriesExceeded

  datatype Reply = Accepted | Rejected(error: UploaderError)

  function RetryAfter(header: Option<string>): (d: Option<Duration>)
    ensures d.Some? ==> d.value <= MAX_DURATION
  {
    match header
    case None => None
    case Some(text) =>
      match ParseU64(text)
      case None => None
      case Some(secs) => Some(secs * SECOND)
  }

  /** How the status of a response is classified. */
  function Classify(response: Response): Reply {
    match response
    case TransportError(reason) => Rejected(RequestError(reason))
    case Http(status, retryAfter, body) =>
      if status == 200 || status == 201 || status == 202 then Accepted
      else if status == 401 || status == 403 then Rejected(AuthError(body))
      else if status == 429 then Rejected(RateLimited(RetryAfter(retryAfter)))
      else Rejected(ServerError(status, body))
  }

  /** The server's behaviour: what it answers to the k-th request of one upload. */
  type Server = nat -> Response

  predicate Stops(reply: Reply) {
    reply.Accepted? || reply.error.AuthError?
  }

  /** The header asks for a delay exactly if it denotes a 64-bit number of seconds, and then for
      that many. */
  lemma RetryAfterExact(header: Option<string>, d: Duration)
    ensures RetryAfter(header) == Some(d) <==>
            header.Some? && d % SECOND == 0 && DenotesU64(header.value, d / SECOND)
  {
    hide DenotesU64, ParseU64;
    if header.Some? {
      ParseU64Exact(header.value, d / SECOND);
      if ParseU64(header.value).Some? {
        WholeSeconds(ParseU64(header.value).value);
      }
    }
  }

  lemma WholeSeconds(secs: nat)
    ensures secs * SECOND % SECOND == 0 && secs * SECOND / SECOND == secs
  {
  }

  /** The delay a reply asks for, if any. */
  function Advice(reply: Reply): (d: Option<Duration>)
  {
    match reply
    case Rejected(RateLimited(retryAfter)) => retryAfter
    case _ => None
  }

  /** A 429 whose header is a printed number of seconds asks for exactly that delay if the number
      fits in 64 bits and for none otherwise; no other response asks for a delay. The loop ends
      early for three success codes and two authentication codes only. */
  lemma ReplyMeaning(response: Response, secs: nat)
    ensures response.Http? && response.status == 429 && response.retryAfter == Some(ToDecimal(secs)) ==>
              Advice(Classify(response)) == if secs < U64_LIMIT then Some(secs * SECOND) else None
    ensures !(response.Http? && response.status == 429) || (response.Http? && response.retryAfter == None) ==>
              Advice(Classify(response)) == None
    ensures Stops(Classify(response)) <==>
              response.Http? && response.status in {200, 201, 202, 401, 403}
    ensures Classify(response).Accepted? <==> response.Http? && response.status in {200, 201, 202}
  {
    ParseU64OfDecimal(secs);
  }

  /** The last of the first k replies that carried a delay. */
  ghost function LastAdvice(server: Server, k: nat): (j: Option<nat>)
    ensures j.Some? ==> j.value < k && Advice(Classify(server(j.value))).Some?
    ensures j.Some? ==> forall i :: j.value < i < k ==> Advice(Classify(server(i))) == None
    ensures j.None? ==> forall i :: 0 <= i < k ==> Advice(Classify(server(i))) == None
  {
    if k == 0 then None
    else if Advice(Classify(server(k - 1))).Some? then Some(k - 1)
    else LastAdvice(server, k - 1)
  }

  /** The delay before attempt k >= 1, in closed form: the last delay the server asked for,
      doubled once for every retry since, or else the initial delay doubled k - 1 times. */
  ghost function DelayBefore(server: Server, initial: Duration, k: nat): Duration
    requires k >= 1
  {
    match LastAdvice(server, k)
    case Some(j) => Advice(Classify(server(j))).value * Pow2(k - 1 - j)
    case None => initial * Pow2(k - 1)
  }

  lemma DelayStep(server: Server, initial: Duration, k: nat)
    ensures DelayBefore(server, initial, k + 1) ==
            match Advice(Classify(server(k)))
            case Some(d) => d
            case None => if k == 0 then initial else 2 * DelayBefore(server, initial, k)
  {
    assert Pow2(0) == 1;
    if k >= 1 && Advice(Classify(server(k))).None? {
      match LastAdvice(server, k)
      case Some(j) =>
        DoublePow2(Advice(Classify(server(j))).value, k - 1 - j);
      case None => DoublePow2(initial, k - 1);
    }
  }

  lemma DoublePow2(d: nat, n: nat)
    ensures d * Pow2(n + 1) == 2 * (d * Pow2(n))
  {
    assert d * (2 * Pow2(n)) == 2 * (d * Pow2(n));
  }

  datatype Outcome =
    | Uploaded
    | Failed(error: UploaderError)
    | DelayOverflow // doubling the delay left the range of durations: the agent aborts

  /** Does the upload get as far as sending request k? All earlier replies were retriable and
      no doubling of the delay overflowed on the way. */
  ghost predicate Sends(server: Server, initial: Duration, k: nat) {
    && (forall i :: 0 <= i < k ==> !Stops(Classify(server(i))))
    && (forall i :: 1 <= i <= k ==> 2 * DelayBefore(server, initial, i) <= MAX_DURATION)
  }

  /** What an upload of a serialised payload does: the requests it sends are all that it gets as
      far as sending, the delays between them follow the closed form, and it ends at the first
      success or authentication error, at the retry limit, or when a delay overflows. */
  ghost predicate Uploads(server: Server, initial: Duration, maxRetries: nat,
                          outcome: Outcome, requests: nat, sleeps: seq<Duration>)
  {
    && 1 <= requests <= maxRetries + 1
    && Sends(server, initial, requests - 1)
    && |sleeps| == (if outcome.DelayOverflow? then requests else requests - 1)
    && (forall i :: 0 <= i < |sleeps| ==> sleeps[i] == DelayBefore(server, initial, i + 1))
    && var last := Classify(server(requests - 1));
       match outcome
       case Uploaded => last == Accepted
       case Failed(error) => last == Rejected(error) && (error.AuthError? || requests == maxRetries + 1)
       case DelayOverflow =>
         && requests <= maxRetries && !Stops(last)
         && 2 * DelayBefore(server, initial, requests) > MAX_DURATION
  }

  class Uploader {
    const initialRetryDelay: Duration
    const maxRetries: nat

    constructor (initialRetryDelay: Duration, maxRetries: nat)
      ensures this.initialRetryDelay == initialRetryDelay && this.maxRetries == maxRetries
    {
      this.initialRetryDelay, this.maxRetries := initialRetryDelay, maxRetries;
    }

    /** Uploads a payload; `payload` is None when it cannot be serialised. Besides the outcome,
        it returns the number of requests sent and the delays slept. */
    method Upload(payload: Option<string>, server: Server)
      returns (outcome: Outcome, requests: nat, sleeps: seq<Duration>)
      ensures payload.None? ==> outcome == Failed(SerializationError) && requests == 0 && sleeps == []
      ensures payload.Some? ==>
                Uploads(server, initialRetryDelay, maxRetries, outcome, requests, sleeps)
    {
      hide DelayBefore, Classify;
      if payload.None? {
        return Failed(SerializationError), 0, [];
      }
      var lastError: Option<UploaderError> := None;
      var retryDelay := initialRetryDelay;
      requests, sleeps := 0, [];
      for attempt := 0 to maxRetries + 1
        invariant requests == attempt
        invariant attempt >= 1 ==> Sends(server, initialRetryDelay, attempt - 1)
        invariant attempt >= 1 ==> !Stops(Classify(server(attempt - 1)))
        invariant attempt >= 1 ==> lastError.Some? && Classify(server(attempt - 1)) == Rejected(lastError.value)
        invariant retryDelay == if attempt == 0 then initialRetryDelay
                                else DelayBefore(server, initialRetryDelay, attempt)
        invariant |sleeps| == if attempt == 0 then 0 else attempt - 1
        invariant forall i :: 0 <= i < |sleeps| ==> sleeps[i] == DelayBefore(server, initialRetryDelay, i + 1)
      {
        if attempt > 0 {
          sleeps := sleeps + [retryDelay];
          if 2 * retryDelay > MAX_DURATION {
            return DelayOverflow, requests, sleeps;
          }
          retryDelay := 2 * retryDelay;
        }
        DelayStep(server, initialRetryDelay, attempt);
        var reply := Classify(server(attempt));
        requests := requests + 1;
        match reply
        case Accepted => return Uploaded, requests, sleeps;
        case Rejected(e) =>
          if e.AuthError? {
            return Failed(e), requests, sleeps;
          }
          match e {
            case RateLimited(Some(duration)) => retryDelay := duration;
            case _ =>
          }
          lastError := Some(e);
      }
      outcome := Failed(match lastError case Some(e) => e case None => MaxRetriesExceeded);
    }
  }

  // ---------- What follows for every server ----------

  /** The relation pins the run down: outcome, number of requests and every delay. */
  lemma UploadDetermined(server: Server, initial: Duration, maxRetries: nat,
                         o: Outcome, r: nat, s: seq<Duration>, o': Outcome, r': nat, s': seq<Duration>)
    requires Uploads(server, initial, maxRetries, o, r, s)
    requires Uploads(server, initial, maxRetries, o', r', s')
    ensures o == o' && r == r' && s == s'
  {
    hide DelayBefore, Classify;
    EndsOnce(server, initial, maxRetries, o, r, s, o', r', s');
    EndsOnce(server, initial, maxRetries, o', r', s', o, r, s);
    assert r == r';
    assert o == o';
    assert |s| == |s'| && forall i :: 0 <= i < |s| ==> s[i] == s'[i];
  }

  lemma EndsOnce(server: Server, initial: Duration, maxRetries: nat,
                 o: Outcome, r: nat, s: seq<Duration>, o': Outcome, r': nat, s': seq<Duration>)
    requires Uploads(server, initial, maxRetries, o, r, s)
    requires Uploads(server, initial, maxRetries, o', r', s')
    ensures r >= r'
  {
    hide DelayBefore, Classify;
    assert forall i :: 0 <= i < r' - 1 ==> !Stops(Classify(server(i)));
    assert forall i :: 1 <= i <= r' - 1 ==> 2 * DelayBefore(server, initial, i) <= MAX_DURATION;
  }

  /** With k the first reply that is a success or an authentication error, an upload that gets
      that far sends exactly k + 1 requests and reports that reply. If there is none within the
      limit it sends all of them and reports the error of the last. */
  lemma UploadOutcome(server: Server, initial: Duration, maxRetries: nat,
                      outcome: Outcome, requests: nat, sleeps: seq<Duration>, k: nat)
    requires Uploads(server, initial, maxRetries, outcome, requests, sleeps)
    requires Sends(server, initial, k)
    ensures k <= maxRetries && Stops(Classify(server(k))) ==>
              requests == k + 1 && outcome == match Classify(server(k))
                                              case Accepted => Uploaded
                                              case Rejected(e) => Failed(e)
    ensures k == maxRetries && !Stops(Classify(server(k))) ==>
              requests == k + 1 && outcome == Failed(Classify(server(k)).error)
  {
    hide DelayBefore, Classify;
    if k <= maxRetries {
      var reply := Classify(server(k));
      var s := seq(k, i requires 0 <= i < k => DelayBefore(server, initial, i + 1));
      if Stops(reply) || k == maxRetries {
        var o := match reply case Accepted => Uploaded case Rejected(e) => Failed(e);
        UploadDetermined(server, initial, maxRetries, outcome, requests, sleeps, o, k + 1, s);
      }
    }
  }

  /** Which error is reported: that of the last response, by its kind and status, with what it
      carried. Success is reported only for a success code. */
  lemma ReportedError(server: Server, initial: Duration, maxRetries: nat,
                      outcome: Outcome, requests: nat, sleeps: seq<Duration>)
    requires Uploads(server, initial, maxRetries, outcome, requests, sleeps)
    ensures var r := server(requests - 1);
            && (outcome.Uploaded? ==> r.Http? && r.status in {200, 201, 202})
            && (outcome.Failed? ==>
                  match r
                  case TransportError(reason) => outcome.error == RequestError(reason)
                  case Http(status, retryAfter, body) =>
                    && status !in {200, 201, 202}
                    && (status in {401, 403} ==> outcome.error == AuthError(body))
                    && (status == 429 ==> outcome.error == RateLimited(RetryAfter(retryAfter)))
                    && (status !in {401, 403, 429} ==> outcome.error == ServerError(status, body)))
  {
    hide DelayBefore;
  }

  /** The fallback error of the retry loop is never reported: some attempt was always made. */
  lemma MaxRetriesExceededUnreachable(server: Server, initial: Duration, maxRetries: nat,
                                      outcome: Outcome, requests: nat, sleeps: seq<Duration>)
    requires Uploads(server, initial, maxRetries, outcome, requests, sleeps)
    ensures outcome != Failed(MaxRetriesExceeded) && outcome != Failed(SerializationError)
  {
    var last := Classify(server(requests - 1));
    assert last != Rejected(MaxRetriesExceeded) && last != Rejected(SerializationError);
  }

  /** The agent aborts on an overflowing delay exactly if, before some retry within the limit,
      the delay it has just slept is more than half of what a duration can hold. */
  lemma OverflowExactly(server: Server, initial: Duration, maxRetries: nat,
                        outcome: Outcome, requests: nat, sleeps: seq<Duration>)
    requires Uploads(server, initial, maxRetries, outcome, requests, sleeps)
    ensures outcome == DelayOverflow <==>
            exists k :: 1 <= k <= maxRetries && Sends(server, initial, k - 1)
                        && !Stops(Classify(server(k - 1)))
                        && 2 * DelayBefore(server, initial, k) > MAX_DURATION
  {
    hide DelayBefore, Classify;
    if k :| 1 <= k <= maxRetries && Sends(server, initial, k - 1)
            && !Stops(Classify(server(k - 1))) && 2 * DelayBefore(server, initial, k) > MAX_DURATION {
      var s := seq(k, i requires 0 <= i < k => DelayBefore(server, initial, i + 1));
      UploadDetermined(server, initial, maxRetries, outcome, requests, sleeps, DelayOverflow, k, s);
    }
  }

  ghost predicate AdviceAtMost(server: Server, n: nat, bound: Duration) {
    forall i :: 0 <= i < n && Advice(Classify(server(i))).Some? ==> Advice(Classify(server(i))).value <= bound
  }

  lemma DelayBound(server: Server, initial: Duration, k: nat, bound: Duration)
    requires k >= 1 && initial <= bound && AdviceAtMost(server, k, bound)
    ensures DelayBefore(server, initial, k) <= bound * Pow2(k - 1)
  {
    hide Advice, Classify;
    match LastAdvice(server, k)
    case Some(j) =>
      var d := Advice(Classify(server(j))).value;
      Pow2Monotone(k - 1 - j, k - 1);
      MulMonotone(d, bound, Pow2(k - 1 - j), Pow2(k - 1));
    case None => MulMonotone(initial, bound, Pow2(k - 1), Pow2(k - 1));
  }

  lemma MulMonotone(a: nat, b: nat, x: nat, y: nat)
    requires a <= b && x <= y
    ensures a * x <= b * y
  {
    assert a * x <= a * y <= b * y;
  }

  lemma {:induction false} Pow2Monotone(m: nat, n: nat)
    requires m <= n
    ensures Pow2(m) <= Pow2(n)
  {
    if m < n {
      Pow2Monotone(m, n - 1);
    }
  }

  lemma SumStep(bound: nat, n: nat)
    ensures bound * (Pow2(n + 1) - 1) == bound * (Pow2(n) - 1) + bound * Pow2(n)
  {
    assert Pow2(n + 1) == 2 * Pow2(n);
  }

  lemma {:induction false} SumOfDoublings(s: seq<nat>, bound: nat)
    requires forall i :: 0 <= i < |s| ==> s[i] <= bound * Pow2(i)
    ensures Sum(s) <= bound * (Pow2(|s|) - 1)
    ensures (forall i :: 0 <= i < |s| ==> s[i] == bound * Pow2(i)) ==> Sum(s) == bound * (Pow2(|s|) - 1)
  {
    if s == [] {
      assert bound * (Pow2(0) - 1) == 0;
    } else {
      hide Pow2;
      SumOfDoublings(Front(s), bound);
      SumStep(bound, |s| - 1);
    }
  }

  /** If neither the initial delay nor any delay the server asks for exceeds a bound, the whole
      upload waits at most bound * (2^maxRetries - 1). */
  lemma TotalWait(server: Server, initial: Duration, maxRetries: nat,
                  outcome: Outcome, requests: nat, sleeps: seq<Duration>, bound: Duration)
    requires Uploads(server, initial, maxRetries, outcome, requests, sleeps)
    requires initial <= bound && AdviceAtMost(server, requests, bound)
    ensures Sum(sleeps) <= bound * (Pow2(maxRetries) - 1)
  {
    hide Classify, DelayBefore, Pow2, Advice;
    forall i | 0 <= i < |sleeps| ensures sleeps[i] <= bound * Pow2(i) {
      DelayBound(server, initial, i + 1, bound);
    }
    SumOfDoublings(sleeps, bound);
    Pow2Monotone(|sleeps|, maxRetries);
    MulMonotone(bound, bound, Pow2(|sleeps|) - 1, Pow2(maxRetries) - 1);
  }

  /** The bound is reached. If every reply but the last allowed one fails without stopping the
      upload or asking for a delay, then doubling the initial delay overflows, or all requests are
      made and the agent waits exactly that long. */
  lemma TotalWaitReached(server: Server, initial: Duration, maxRetries: nat,
                         outcome: Outcome, requests: nat, sleeps: seq<Duration>)
    requires Uploads(server, initial, maxRetries, outcome, requests, sleeps)
    requires forall i :: 0 <= i < maxRetries ==> !Stops(Classify(server(i))) && Advice(Classify(server(i))) == None
    ensures outcome == DelayOverflow <==> maxRetries > 0 && initial * Pow2(maxRetries) > MAX_DURATION
    ensures outcome != DelayOverflow ==>
              requests == maxRetries + 1 && Sum(sleeps) == initial * (Pow2(maxRetries) - 1)
  {
    hide Classify, DelayBefore, Pow2, Advice;
    if outcome == DelayOverflow {
      NoAdviceDelay(server, initial, requests);
      DoublePow2(initial, requests - 1);
      Pow2Monotone(requests, maxRetries);
      MulMonotone(initial, initial, Pow2(requests), Pow2(maxRetries));
    } else {
      assert requests == maxRetries + 1;
      if maxRetries > 0 {
        NoAdviceDelay(server, initial, maxRetries);
        DoublePow2(initial, maxRetries - 1);
        assert 2 * DelayBefore(server, initial, maxRetries) <= MAX_DURATION;
      }
      forall i | 0 <= i < |sleeps| ensures sleeps[i] == initial * Pow2(i) {
        NoAdviceDelay(server, initial, i + 1);
      }
      SumOfDoublings(sleeps, initial);
    }
  }

  lemma NoAdviceDelay(server: Server, initial: Duration, k: nat)
    requires k >= 1 && forall i :: 0 <= i < k ==> Advice(Classify(server(i))) == None
    ensures DelayBefore(server, initial, k) == initial * Pow2(k - 1)
  {
    hide Classify, Advice;
  }

  /** Bounded delays cannot overflow. */
  lemma BoundedNeverOverflows(server: Server, initial: Duration, maxRetries: nat,
                              outcome: Outcome, requests: nat, sleeps: seq<Duration>, bound: Duration)
    requires Uploads(server, initial, maxRetries, outcome, requests, sleeps)
    requires initial <= bound && AdviceAtMost(server, requests, bound)
    requires bound * Pow2(maxRetries) <= MAX_DURATION
    ensures outcome != DelayOverflow
  {
    hide Classify, DelayBefore;
    if outcome == DelayOverflow {
      DelayBound(server, initial, requests, bound);
      DoublePow2(bound, requests - 1);
      Pow2Monotone(requests, maxRetries);
      MulMonotone(bound, bound, Pow2(requests), Pow2(maxRetries));
      assert false;
    }
  }

  /** With the agent's own settings (one second, three retries) no Retry-After below 2^61
      seconds makes it abort. */
  lemma DefaultSettingsSafe(server: Server, outcome: Outcome, requests: nat, sleeps: seq<Duration>)
    requires Uploads(server, SECOND, 3, outcome, requests, sleeps)
    requires AdviceAtMost(server, requests, 0x2000_0000_0000_0000 * SECOND - 1)
    ensures outcome != DelayOverflow
  {
    assert Pow2(3) == 8;
    BoundedNeverOverflows(server, SECOND, 3, outcome, requests, sleeps, 0x2000_0000_0000_0000 * SECOND - 1);
  }

  /** If the first reply asks for a delay and every later one fails without asking for any, the
      upload aborts exactly if that delay, doubled once per retry, leaves the range. */
  lemma FirstAdviceOverflows(server: Server, initial: Duration, maxRetries: nat,
                             outcome: Outcome, requests: nat, sleeps: seq<Duration>, d: Duration)
    requires Uploads(server, initial, maxRetries, outcome, requests, sleeps)
    requires Advice(Classify(server(0))) == Some(d)
    requires forall i :: 0 < i <= maxRetries ==>
               !Stops(Classify(server(i))) && Advice(Classify(server(i))) == None
    ensures outcome == DelayOverflow <==> maxRetries > 0 && d * Pow2(maxRetries) > MAX_DURATION
  {
    hide Classify, DelayBefore, Pow2;
    assert !Stops(Classify(server(0)));
    if outcome == DelayOverflow {
      FirstAdviceDelay(server, initial, requests, d);
      Pow2Monotone(requests, maxRetries);
      MulMonotone(d, d, Pow2(requests), Pow2(maxRetries));
    } else {
      assert requests == maxRetries + 1;
      if maxRetries > 0 {
        assert 2 * DelayBefore(server, initial, maxRetries) <= MAX_DURATION;
        FirstAdviceDelay(server, initial, maxRetries, d);
      }
    }
  }

  lemma FirstAdviceDelay(server: Server, initial: Duration, k: nat, d: Duration)
    requires k >= 1 && Advice(Classify(server(0))) == Some(d)
    requires forall i :: 0 < i < k ==> Advice(Classify(server(i))) == None
    ensures 2 * DelayBefore(server, initial, k) == d * Pow2(k)
  {
    hide Classify, Advice;
    assert LastAdvice(server, k) == Some(0);
    DoublePow2(d, k - 1);
  }

  /** With the agent's own settings the threshold is 2^61 seconds: a first reply asking for that
      much or more, followed by failures, aborts it, and one asking for less does not. */
  lemma DefaultSettingsOverflow(server: Server, outcome: Outcome, requests: nat, sleeps: seq<Duration>, secs: nat)
    requires Uploads(server, SECOND, 3, outcome, requests, sleeps)
    requires server(0).Http? && server(0).status == 429 && server(0).retryAfter == Some(ToDecimal(secs))
    requires secs < U64_LIMIT && forall i :: 0 < i <= 3 ==> server(i).TransportError?
    ensures outcome == DelayOverflow <==> secs >= 0x2000_0000_0000_0000
  {
    hide ToDecimal, Uploads, Classify;
    ReplyMeaning(server(0), secs);
    assert Pow2(3) == 8;
    forall i | 0 < i <= 3 ensures !Stops(Classify(server(i))) && Advice(Classify(server(i))) == None {
      ReplyMeaning(server(i), 0);
    }
    FirstAdviceOverflows(server, SECOND, 3, outcome, requests, sleeps, secs * SECOND);
  }
}
