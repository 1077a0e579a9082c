/** The transport of the language-model providers: one call and its error mapping, and the bounded retry
    loop around it. */
module Retry {
  import opened Contract
  import opened Text

  datatype TriageError = Timeout | RateLimited | UpstreamError | BadRequest | MalformedOutput

  predicate Retryable(e: TriageError) {
    e in {Timeout, RateLimited, UpstreamError}
  }

  /** What an HTTP post comes to. The content of a response is None if its envelope is not the expected
      one. */
  datatype Reply =
    | TimedOut
    | TransportFailed
    | Response(status: int, content: Option<string>)

  datatype Outcome = Answer(result: TriageResult) | Error(error: TriageError) | NoAttempt

  /** How model output is read: the JSON decoder and the number reader. */
  datatype Reader = Reader(loads: string -> Option<Json>, float: FloatReader)

  /** `_call_once`. */
  function CallOnce(reply: Reply, reader: Reader): Outcome {
    match reply
    case TimedOut => Error(Timeout)
    case TransportFailed => Error(UpstreamError)
    case Response(status, content) =>
      if status == 429 then Error(RateLimited)
      else if status >= 500 then Error(UpstreamError)
      else if status >= 400 then Error(BadRequest)
      else if content.None? then Error(MalformedOutput)
      else
        var parsed := ParseTriageJson(content.value, reader.loads, reader.float);
        if parsed.None? then Error(MalformedOutput) else Answer(parsed.value)
  }

  /** An attempt after which the loop goes on, if it may. */
  predicate Inconclusive(o: Outcome) {
    o.Error? && Retryable(o.error)
  }

  /** This reply is good for this result: not an error status, and content that, out of its fence, decodes and
      validates. */
  predicate Gives(reply: Reply, reader: Reader, r: TriageResult) {
    && reply.Response? && reply.status < 400 && reply.content.Some?
    && var decoded := reader.loads(Unfence(reply.content.value));
    decoded.Some? && Validate(decoded.value, reader.float) == Some(r)
  }

  /** The provider could not be reached or is overloaded or broken. */
  predicate Transient(reply: Reply) {
    !reply.Response? || reply.status == 429 || reply.status >= 500
  }

  /** A result that keeps the contract, dumped, encoded and returned with a status that is no error, is answered,
      whatever fence, label and blanks the model puts around it. */
  lemma GoodReplyGives(r: TriageResult, reader: Reader, status: int, obj: string,
                       tag: string, before: string, after: string, left: string, right: string)
    requires Promised(r) && status < 400 && reader.loads(obj) == Some(Dump(r))
    requires |obj| > 0 && obj[0] == '{' && obj[|obj| - 1] == '}'
    requires AllSpace(before) && AllSpace(after) && AllSpace(left) && AllSpace(right) && IsLabel(tag)
    ensures CallOnce(Response(status, Some(left + obj + right)), reader) == Answer(r)
    ensures CallOnce(Response(status, Some(left + (FENCE + (tag + before + (obj + after + FENCE))) + right)), reader)
      == Answer(r)
  {
    hide Unfence, Validate, Dump, Promised;
    FencesAreTransparent(obj, tag, before, after, left, right);
    DumpThenValidate(r, reader.float);
  }

  /** What each reply is answered with. Every answer keeps the contract, and an error is retried exactly when the
      provider timed out, was unreachable, or answered 429 or at least 500. */
  lemma CallOnceMapsErrors(reply: Reply, reader: Reader)
    ensures var o := CallOnce(reply, reader);
      && !o.NoAttempt?
      && (forall r :: o == Answer(r) <==> Gives(reply, reader, r))
      && (o == Error(Timeout) <==> reply.TimedOut?)
      && (o == Error(RateLimited) <==> reply.Response? && reply.status == 429)
      && (o == Error(UpstreamError) <==> reply.TransportFailed? || (reply.Response? && reply.status >= 500))
      && (o == Error(BadRequest) <==> reply.Response? && 400 <= reply.status < 500 && reply.status != 429)
      && (o == Error(MalformedOutput) <==>
            reply.Response? && reply.status < 400 && forall r :: !Gives(reply, reader, r))
      && (o.Answer? ==> Promised(o.result) && reply.Response? && reply.status < 400)
      && (Inconclusive(o) <==> Transient(reply))
  {
    hide Validate, Unfence, Promised;
    if reply.Response? && reply.content.Some? {
      var data := reader.loads(Unfence(reply.content.value));
      if data.Some? {
        ValidateKeepsPromise(data.value, reader.float);
      }
    }
  }

  /** The k-th reply is good, and all before it were worth another try. */
  ghost predicate FirstGood(script: nat -> Reply, reader: Reader, k: nat, r: TriageResult) {
    Gives(script(k), reader, r) && forall j: nat | 1 <= j < k :: Transient(script(j))
  }

  lemma FirstGoodIsAnswered(script: nat -> Reply, reader: Reader, n: nat, calls: nat)
    requires 1 <= calls <= n
    requires forall j | 1 <= j < calls :: Inconclusive(CallOnce(script(j), reader))
    requires calls == n || !Inconclusive(CallOnce(script(calls), reader))
    ensures forall k: nat, r | 1 <= k <= n && FirstGood(script, reader, k, r) ::
      k == calls && CallOnce(script(calls), reader) == Answer(r)
  {
    hide CallOnce, Gives, Transient;
    forall k: nat, r | 1 <= k <= n && FirstGood(script, reader, k, r)
      ensures k == calls && CallOnce(script(calls), reader) == Answer(r)
    {
      CallOnceMapsErrors(script(k), reader);
      CallOnceMapsErrors(script(calls), reader);
    }
  }

  function Upwards(n: nat): (s: seq<nat>)
    ensures |s| == n && forall i | 0 <= i < n :: s[i] == i + 1
  {
    seq(n, i => i + 1)
  }

  class HttpJsonProvider {
    const maxAttempts: nat
    const reader: Reader
    /** The arguments `_sleep` has been called with. */
    var slept: seq<nat>

    constructor (maxAttempts: nat, reader: Reader)
      ensures this.maxAttempts == maxAttempts && this.reader == reader && slept == []
    {
      this.maxAttempts := maxAttempts;
      this.reader := reader;
      slept := [];
    }

    /** `script(k)` is what the k-th post would come to. */
    method Triage(script: nat -> Reply) returns (outcome: Outcome, calls: nat)
      modifies this
      ensures calls <= maxAttempts && (maxAttempts > 0 ==> calls > 0)
      ensures outcome == if maxAttempts == 0 then NoAttempt else CallOnce(script(calls), reader)
      ensures forall k | 1 <= k < calls :: Inconclusive(CallOnce(script(k), reader))
      ensures maxAttempts > 0 ==> calls == maxAttempts || !Inconclusive(outcome)
      ensures slept == old(slept) + Upwards(if calls > 0 then calls - 1 else 0)
      ensures forall k: nat, r | 1 <= k <= maxAttempts && FirstGood(script, reader, k, r) ::
        outcome == Answer(r) && calls == k
      ensures outcome.Answer? ==> calls > 0 && Gives(script(calls), reader, outcome.result)
    {
      var last := NoAttempt;
      calls := 0;
      for attempt := 1 to maxAttempts + 1
        invariant calls == attempt - 1
        invariant forall k | 1 <= k < attempt :: Inconclusive(CallOnce(script(k), reader))
        invariant last == if attempt == 1 then NoAttempt else CallOnce(script(attempt - 1), reader)
        invariant slept == old(slept)
          + Upwards(if attempt - 1 < maxAttempts then attempt - 1 else if maxAttempts > 0 then maxAttempts - 1 else 0)
      {
        calls := calls + 1;
        CallOnceMapsErrors(script(attempt), reader);
        var o := CallOnce(script(attempt), reader);
        if !Inconclusive(o) {
          FirstGoodIsAnswered(script, reader, maxAttempts, calls);
          return o, calls;
        }
        last := o;
        if attempt < maxAttempts {
          slept := slept + [attempt];
          assert Upwards(attempt - 1) + [attempt] == Upwards(attempt);
        }
      }
      if calls > 0 {
        FirstGoodIsAnswered(script, reader, maxAttempts, calls);
        CallOnceMapsErrors(script(calls), reader);
      }
      return last, calls;
    }
  }

  /** The duration of the sleep after the k-th attempt lies between these. */
  predicate JitterBound(k: nat, seconds: real) {
    0.25 * k as real <= seconds <= 0.25 * k as real + 0.5
  }

  /** Time spent by `calls` posts and the sleeps between them. */
  function Elapsed(calls: nat, post: nat -> real, sleep: nat -> real): real {
    if calls == 0 then 0.0
    else if calls == 1 then post(1)
    else Elapsed(calls - 1, post, sleep) + sleep(calls - 1) + post(calls)
  }

  function TimeBound(n: nat, t: real): real
    requires n >= 1
  {
    n as real * t + 0.125 * (n * (n - 1)) as real + 0.5 * (n - 1) as real
  }

  /** However long each post takes up to `t`, the loop ends within the bound, and no smaller one will do. */
  lemma {:induction false} ElapsedBounded(calls: nat, n: nat, t: real, post: nat -> real, sleep: nat -> real)
    requires 1 <= calls <= n && t >= 0.0
    requires forall k | 1 <= k <= calls :: 0.0 <= post(k) <= t
    requires forall k | 1 <= k < calls :: JitterBound(k, sleep(k))
    ensures Elapsed(calls, post, sleep) <= TimeBound(calls, t) <= TimeBound(n, t)
    ensures calls == n && (forall k | 1 <= k <= n :: post(k) == t && sleep(k) == 0.25 * k as real + 0.5) ==>
      Elapsed(calls, post, sleep) == TimeBound(n, t)
    decreases n + calls
  {
    if calls > 1 {
      ElapsedBounded(calls - 1, calls - 1, t, post, sleep);
      BoundStep(calls, t);
      assert JitterBound(calls - 1, sleep(calls - 1));
    }
    if calls < n {
      ElapsedBounded(calls, n - 1, t, post, sleep);
      BoundStep(n, t);
    }
  }

  lemma BoundStep(n: nat, t: real)
    requires n >= 2
    ensures TimeBound(n, t) == TimeBound(n - 1, t) + t + 0.25 * (n - 1) as real + 0.5
  {
    assert n * (n - 1) == (n - 1) * (n - 2) + 2 * (n - 1);
    assert n as real * t == (n - 1) as real * t + t;
  }

  /** With posts of at most ten seconds, two attempts end well within the proxy's 30 seconds; two is also
      the largest number of attempts for which that is guaranteed. */
  lemma TwoAttemptsFitTheProxy(n: nat)
    requires n >= 1
    ensures TimeBound(n, 10.0) < 30.0 <==> n <= 2
    ensures TimeBound(2, 10.0) == 20.75
  {
    if n >= 3 {
      assert n * (n - 1) >= 0;
    }
  }
}
