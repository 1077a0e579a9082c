/** The fixed-window rate limiter that every backend replica shares through one Redis server. Times are
    in milliseconds: `now` on the clock of the replica serving the call, `server` on Redis's clock. */
module RateLimiting {
  import opened Contract

  /** A counter key. Redis treats a key whose expiry has come as absent. */
  datatype Counter = Counter(count: nat, expires: Option<nat>)
  type Counters = map<string, Counter>

  datatype RateDecision = RateDecision(allowed: bool, remaining: nat, retryAfter: nat)

  /** What becomes of a pipeline: executed and answered; never executed; or executed, with the answer
      lost. The client sees an error in the last two cases. */
  datatype Net = Delivered | RequestLost | ReplyLost

  datatype Config = Config(limit: nat, window: nat)
  type Limits = c: Config | c.window >= 1 witness Config(10, 60)

  /** One call of `hit` by some replica. */
  datatype Call = Call(identity: string, now: nat, server: nat, net: Net)

  function Decimal(n: nat): string {
    var digit := ['0' + (n % 10) as char];
    if n < 10 then digit else Decimal(n / 10) + digit
  }

  /** `int(now // window) * window`, in seconds. */
  function WindowStart(c: Limits, now: nat): (start: nat)
    ensures start * 1000 <= now < (start + c.window) * 1000
  {
    WindowBounds(now, c.window);
    now / (1000 * c.window) * c.window
  }

  lemma WindowBounds(now: nat, w: nat)
    requires w >= 1
    ensures var start := now / (1000 * w) * w; 0 <= start && start * 1000 <= now < (start + w) * 1000
  {
    var q := now / (1000 * w);
    Quotient(now, 1000 * w);
    Regroup(q, w);
  }

  lemma Quotient(n: nat, d: nat)
    requires d >= 1
    ensures n / d >= 0 && d * (n / d) <= n < d * (n / d) + d
  {
  }

  lemma Regroup(q: nat, w: nat)
    ensures q * w >= 0 && 1000 * w * q == q * w * 1000
  {
    assert 1000 * w * q == 1000 * (w * q);
  }

  function CounterKey(identity: string, windowStart: nat): string {
    "ratelimit:" + identity + ":" + Decimal(windowStart)
  }

  function KeyOf(c: Limits, call: Call): string {
    CounterKey(call.identity, WindowStart(c, call.now))
  }

  predicate Live(counters: Counters, key: string, server: nat) {
    key in counters && (counters[key].expires.None? || server < counters[key].expires.value)
  }

  /** INCR. */
  function Incr(counters: Counters, key: string, server: nat): Counters {
    if Live(counters, key, server) then counters[key := counters[key].(count := counters[key].count + 1)]
    else counters[key := Counter(1, None)]
  }

  /** EXPIRE. */
  function Expire(counters: Counters, key: string, server: nat, seconds: nat): Counters {
    if Live(counters, key, server) then counters[key := counters[key].(expires := Some(server + 1000 * seconds))]
    else counters
  }

  /** `max(1, int(window_start + window - now + 0.999))` for a clock of `k` ticks to the millisecond. */
  function RetryAfter(window: nat, windowStart: nat, now: nat, k: nat): nat
    requires k >= 1 && now <= (windowStart + window) * (1000 * k)
  {
    var seconds := ((windowStart + window) * (1000 * k) - now + 999 * k) / (1000 * k);
    if seconds > 1 then seconds else 1
  }

  /** The counters after one call, and its answer. */
  function Serve(c: Limits, counters: Counters, call: Call): (Counters, RateDecision) {
    var key := KeyOf(c, call);
    var after := if call.net == RequestLost then counters
                 else Expire(Incr(counters, key, call.server), key, call.server, c.window + 1);
    if call.net != Delivered then (after, RateDecision(true, c.limit, 0))
    else
      var count := if key in after then after[key].count else 0;
      var retry := RetryAfter(c.window, WindowStart(c, call.now), call.now, 1);
      if count > c.limit then (after, RateDecision(false, 0, retry))
      else (after, RateDecision(true, c.limit - count, retry))
  }

  /** The limiter of any replica, on the one server. */
  class RateLimiter {
    const c: Limits
    var counters: Counters
    /** Every call so far, by whatever replica. */
    ghost var calls: seq<Call>

    ghost predicate Valid()
      reads this
    {
      counters == Run(c, calls)
    }

    constructor (c: Limits)
      ensures Valid() && this.c == c && calls == []
    {
      this.c := c;
      counters := map[];
      calls := [];
    }

    /** A call that hears from Redis is allowed exactly if it is among the first `limit` counted in its window, and
        is told how many are left and how long to wait; one that does not is allowed. */
    method Hit(identity: string, now: nat, server: nat, net: Net) returns (d: RateDecision)
      requires Valid()
      modifies this
      ensures Valid() && calls == old(calls) + [Call(identity, now, server, net)] && d == LastDecision(c, calls)
      ensures net == Delivered && WellTimed(calls) ==>
        var n := Counted(c, calls, CounterKey(identity, WindowStart(c, now)));
        d.allowed == (n <= c.limit) && d.remaining == (if n <= c.limit then c.limit - n else 0)
      ensures net == Delivered ==>
        var wait := 1000 * d.retryAfter;
        && 1 <= d.retryAfter <= c.window
        && WindowStart(c, now + wait) > WindowStart(c, now) && WindowStart(c, now + wait - 1000) == WindowStart(c, now)
      ensures net != Delivered ==> d == RateDecision(true, c.limit, 0)
    {
      ghost var call := Call(identity, now, server, net);
      ghost var before := counters;
      calls := calls + [call];
      assert calls[..|calls| - 1] == old(calls);
      RetryAfterIsLeast(c, now);
      d := Execute(identity, now, server, net);
      if net == Delivered && WellTimed(calls) {
        DecisionExact(c, calls);
      }
    }

    method Execute(identity: string, now: nat, server: nat, net: Net) returns (d: RateDecision)
      modifies this`counters
      ensures (counters, d) == Serve(c, old(counters), Call(identity, now, server, net))
    {
      var windowStart := WindowStart(c, now);
      var key := CounterKey(identity, windowStart);
      var count := 0;
      if net != RequestLost {
        counters := Incr(counters, key, server);
        counters := Expire(counters, key, server, c.window + 1);
        count := counters[key].count;
      }
      if net != Delivered {
        return RateDecision(true, c.limit, 0);
      }
      var retry := RetryAfter(c.window, windowStart, now, 1);
      if count > c.limit {
        return RateDecision(false, 0, retry);
      }
      return RateDecision(true, c.limit - count, retry);
    }
  }

  /** The counters after a run of calls, starting from a server that holds none. */
  function Run(c: Limits, calls: seq<Call>): Counters {
    if calls == [] then map[] else Serve(c, Run(c, calls[..|calls| - 1]), calls[|calls| - 1]).0
  }

  /** The answer to the last call of a run. */
  function LastDecision(c: Limits, calls: seq<Call>): RateDecision
    requires calls != []
  {
    Serve(c, Run(c, calls[..|calls| - 1]), calls[|calls| - 1]).1
  }

  /** Redis's clock never goes back, and every replica's clock is within half a second of it. */
  predicate WellTimed(calls: seq<Call>) {
    && (forall i, j | 0 <= i < j < |calls| :: calls[i].server <= calls[j].server)
    && (forall i | 0 <= i < |calls| :: InStep(calls[i]))
  }

  predicate InStep(call: Call) {
    call.server - 500 <= call.now <= call.server + 500
  }

  /** How many pipelines of the run have been executed on `key`. */
  function Counted(c: Limits, calls: seq<Call>, key: string): nat {
    if calls == [] then 0
    else
      var last := calls[|calls| - 1];
      Counted(c, calls[..|calls| - 1], key) + (if KeyOf(c, last) == key && last.net != RequestLost then 1 else 0)
  }

  /** The index of the last pipeline executed on `key`. */
  function LastCounted(c: Limits, calls: seq<Call>, key: string): (i: nat)
    requires Counted(c, calls, key) > 0
    ensures i < |calls| && KeyOf(c, calls[i]) == key
  {
    var last := |calls| - 1;
    if KeyOf(c, calls[last]) == key && calls[last].net != RequestLost then last
    else LastCounted(c, calls[..last], key)
  }

  lemma {:induction false} DecimalInjective(m: nat, n: nat)
    requires Decimal(m) == Decimal(n)
    ensures m == n
  {
    DecimalLength(m);
    DecimalLength(n);
    var s := Decimal(m);
    assert s[|s| - 1] == '0' + (m % 10) as char == '0' + (n % 10) as char;
    if m >= 10 && n >= 10 {
      assert s[..|s| - 1] == Decimal(m / 10) == Decimal(n / 10);
      DecimalInjective(m / 10, n / 10);
    }
  }

  lemma {:induction false} DecimalLength(n: nat)
    ensures |Decimal(n)| >= 1 && (n >= 10 <==> |Decimal(n)| >= 2) && ':' !in Decimal(n)
  {
    if n >= 10 { DecimalLength(n / 10); }
  }

  /** Whatever an identity contains, colons and digits included, two clients or two windows never share
      a counter. */
  lemma {:induction false} KeysInjective(id: string, w: nat, id': string, w': nat)
    requires CounterKey(id, w) == CounterKey(id', w')
    ensures id == id' && w == w'
  {
    DecimalLength(w);
    DecimalLength(w');
    var k := CounterKey(id, w);
    assert k[10..] == id + ":" + Decimal(w) == id' + ":" + Decimal(w');
    LastColon(id, Decimal(w), id', Decimal(w'));
    DecimalInjective(w, w');
  }

  lemma {:induction false} LastColon(a: string, x: string, b: string, y: string)
    requires ':' !in x && ':' !in y && a + ":" + x == b + ":" + y
    ensures a == b && x == y
  {
    var s := a + ":" + x;
    assert s[|s| - 1] == if x == "" then ':' else x[|x| - 1];
    assert s[|s| - 1] == if y == "" then ':' else y[|y| - 1];
    if x != "" && y != "" {
      assert s[..|s| - 1] == a + ":" + x[..|x| - 1] == b + ":" + y[..|y| - 1];
      LastColon(a, x[..|x| - 1], b, y[..|y| - 1]);
    } else {
      assert s[..|s| - 1] == a == b;
    }
  }

  /** What the server holds on `key` after a run: the exact number of hits, and an expiry one second
      past a whole window after the latest of them. */
  predicate Exact(c: Limits, calls: seq<Call>, counters: Counters, key: string) {
    var n := Counted(c, calls, key);
    && (key in counters <==> n > 0)
    && (n > 0 ==>
          var last := calls[LastCounted(c, calls, key)];
          counters[key] == Counter(n, Some(last.server + 1000 * (c.window + 1))))
  }

  /** Two calls keyed to one window are less than a window and a second apart on Redis's clock, so the
      counter the first one left is still alive when the second arrives. */
  lemma NoResetWithinWindow(c: Limits, first: Call, second: Call)
    requires KeyOf(c, first) == KeyOf(c, second) && InStep(first) && InStep(second)
    ensures second.server < first.server + 1000 * (c.window + 1)
  {
    KeysInjective(first.identity, WindowStart(c, first.now), second.identity, WindowStart(c, second.now));
  }

  /** Through every well-timed run, whatever calls fail and however identities and windows interleave,
      no counter is ever reset while it can still be hit, and every counter carries an expiry. */
  lemma {:induction false} CountersExact(c: Limits, calls: seq<Call>, key: string)
    requires WellTimed(calls)
    ensures Exact(c, calls, Run(c, calls), key)
  {
    if calls != [] {
      var before, call := calls[..|calls| - 1], calls[|calls| - 1];
      CountersExact(c, before, key);
      if KeyOf(c, call) == key && Counted(c, before, key) > 0 {
        NoResetWithinWindow(c, before[LastCounted(c, before, key)], call);
      }
      OneMore(c, calls, Run(c, before), key);
    }
  }

  lemma OneMore(c: Limits, calls: seq<Call>, counters: Counters, key: string)
    requires calls != []
    requires var before, call := calls[..|calls| - 1], calls[|calls| - 1];
      && Exact(c, before, counters, key)
      && (KeyOf(c, call) == key && key in counters ==> Live(counters, key, call.server))
    ensures Exact(c, calls, Serve(c, counters, calls[|calls| - 1]).0, key)
  {
    hide RetryAfter, KeyOf, WindowStart;
  }

  /** The answer to a delivered call depends only on how many pipelines were executed on its window,
      this one included: the limit is exact and `remaining` never negative. */
  lemma DecisionExact(c: Limits, calls: seq<Call>)
    requires WellTimed(calls) && calls != [] && calls[|calls| - 1].net == Delivered
    ensures var n := Counted(c, calls, KeyOf(c, calls[|calls| - 1]));
      && LastDecision(c, calls).allowed == (n <= c.limit)
      && LastDecision(c, calls).remaining == (if n <= c.limit then c.limit - n else 0)
  {
    CountersExact(c, calls, KeyOf(c, calls[|calls| - 1]));
  }

  /** Calls on `key` that the limiter admitted because it had counted them. */
  function Admitted(c: Limits, calls: seq<Call>, key: string): nat {
    if calls == [] then 0
    else
      Admitted(c, calls[..|calls| - 1], key)
      + (if KeyOf(c, calls[|calls| - 1]) == key then LastAdmitted(c, calls) else 0)
  }

  function LastAdmitted(c: Limits, calls: seq<Call>): nat
    requires calls != []
  {
    if calls[|calls| - 1].net == Delivered && LastDecision(c, calls).allowed then 1 else 0
  }

  /** Calls on `key` that failed open: their client saw a Redis error. */
  function FailedOpen(c: Limits, calls: seq<Call>, key: string): nat {
    if calls == [] then 0
    else
      var last := calls[|calls| - 1];
      FailedOpen(c, calls[..|calls| - 1], key) + (if KeyOf(c, last) == key && last.net != Delivered then 1 else 0)
  }

  /** All the calls on `key` that were allowed. */
  function Allowed(c: Limits, calls: seq<Call>, key: string): nat {
    if calls == [] then 0
    else
      Allowed(c, calls[..|calls| - 1], key)
      + (if KeyOf(c, calls[|calls| - 1]) == key && LastDecision(c, calls).allowed then 1 else 0)
  }

  function Min(a: nat, b: nat): nat {
    if a < b then a else b
  }

  /** Hits on `key` that were counted among the first `limit`, but whose client never learnt of it. */
  function Wasted(c: Limits, calls: seq<Call>, key: string): nat {
    if calls == [] then 0
    else
      var last := calls[|calls| - 1];
      Wasted(c, calls[..|calls| - 1], key)
      + (if KeyOf(c, last) == key && last.net == ReplyLost && Counted(c, calls, key) <= c.limit then 1 else 0)
  }

  /** Of all the calls keyed to one window, exactly those that failed open and the first `limit` counted ones are
      allowed; one of the latter whose answer is lost has failed open and is used up all the same. */
  lemma {:induction false} LimitExact(c: Limits, calls: seq<Call>, key: string)
    requires WellTimed(calls)
    ensures Allowed(c, calls, key) == Admitted(c, calls, key) + FailedOpen(c, calls, key)
    ensures Admitted(c, calls, key) + Wasted(c, calls, key) == Min(Counted(c, calls, key), c.limit)
  {
    hide KeyOf;
    if calls != [] {
      LimitExact(c, calls[..|calls| - 1], key);
      if calls[|calls| - 1].net == Delivered {
        DecisionExact(c, calls);
      }
    }
  }

  lemma NextWindow(c: Limits, from: nat, now: nat)
    requires from <= now <= from + 1000 * c.window
    ensures WindowStart(c, now) in {WindowStart(c, from), WindowStart(c, from) + c.window}
  {
    var q, r := from / (1000 * c.window), now / (1000 * c.window);
    QuotientSteps(from, now, 1000 * c.window);
    assert (q + 1) * c.window == q * c.window + c.window;
  }

  lemma QuotientSteps(m: nat, n: nat, d: nat)
    requires d >= 1 && m <= n <= m + d
    ensures n / d == m / d || n / d == m / d + 1
  {
    Quotient(m, d);
    if n < d * (m / d) + d {
      QuotientUnique(n, d, m / d);
    } else {
      assert d * (m / d + 1) == d * (m / d) + d;
      QuotientUnique(n, d, m / d + 1);
    }
  }

  lemma MulMonotone(d: nat, a: nat, b: nat)
    requires a <= b
    ensures d * a <= d * b
  {
  }

  /** At the limiter's own resolution the advertised delay is a positive number of seconds, no more than
      the window, and the least after which the same caller is counted in a later window. */
  lemma RetryAfterIsLeast(c: Limits, now: nat)
    ensures var start := WindowStart(c, now);
      var retry := RetryAfter(c.window, start, now, 1);
      && 1 <= retry <= c.window
      && WindowStart(c, now + 1000 * retry) > start
      && WindowStart(c, now + 1000 * (retry - 1)) == start
  {
    var start := WindowStart(c, now);
    var retry := RetryAfter(c.window, start, now, 1);
    var rest := (start + c.window) * 1000 - now;
    assert 1000 * (retry - 1) < rest <= 1000 * retry;
    NextWindow(c, now, now + 1000 * (retry - 1));
  }

  /** A clock of `k` ticks to the millisecond sees the delay fall short by less than a millisecond, and
      exactly when the time left exceeds a whole number of seconds, at least one, by less than that. */
  lemma RetryAfterShortfall(window: nat, start: nat, now: nat, k: nat)
    requires k >= 1 && start * (1000 * k) <= now < (start + window) * (1000 * k)
    ensures var rest, second := (start + window) * (1000 * k) - now, 1000 * k;
      var retry := RetryAfter(window, start, now, k);
      && rest < retry * second + k
      && (rest <= retry * second <==> rest < second || rest % second == 0 || rest % second >= k)
  {
    WholeSeconds((start + window) * (1000 * k) - now, k);
  }

  lemma WholeSeconds(rest: nat, k: nat)
    requires k >= 1
    ensures var d := 1000 * k;
      var seconds := (rest + 999 * k) / d;
      var retry := if seconds > 1 then seconds else 1;
      && rest < retry * d + k
      && (rest <= retry * d <==> rest < d || rest % d == 0 || rest % d >= k)
  {
    var d := 1000 * k;
    var q, r := rest / d, rest % d;
    Quotient(rest, d);
    assert rest == q * d + r;
    RoundUp(q, r, k);
    assert (q + 1) * d == q * d + d;
    assert q == 0 <==> rest < d by { if q > 0 { MulMonotone(d, 1, q); } }
  }

  lemma RoundUp(q: nat, r: nat, k: nat)
    requires k >= 1 && r < 1000 * k
    ensures (q * (1000 * k) + r + 999 * k) / (1000 * k) == if r >= k then q + 1 else q
  {
    var n, d := q * (1000 * k) + r + 999 * k, 1000 * k;
    var p := if r >= k then q + 1 else q;
    assert d * p <= n < d * p + d;
    QuotientUnique(n, d, p);
  }

  lemma QuotientUnique(n: nat, d: nat, p: nat)
    requires d >= 1 && d * p <= n < d * p + d
    ensures n / d == p
  {
    Quotient(n, d);
    var q := n / d;
    if q < p { MulMonotone(d, q + 1, p); }
    if p < q { MulMonotone(d, p + 1, q); }
  }
}
