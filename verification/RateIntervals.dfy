/** How many calls of one client an interval of time can hold, on whose clock it is measured. */
module RateIntervals {
  import opened RateLimiting

  /** The calls of one client from a time on, for so many milliseconds, on the replicas' clocks or on Redis's. */
  datatype Interval = Interval(identity: string, onServer: bool, from: nat, length: nat)

  predicate Within(v: Interval, call: Call) {
    var t := if v.onServer then call.server else call.now;
    call.identity == v.identity && v.from <= t < v.from + v.length
  }

  /** The calls in an interval that were admitted because they were counted, that failed open, and that were
      allowed at all. */
  function AdmittedIn(c: Limits, calls: seq<Call>, v: Interval): nat {
    if calls == [] then 0
    else
      AdmittedIn(c, calls[..|calls| - 1], v) + (if Within(v, calls[|calls| - 1]) then LastAdmitted(c, calls) else 0)
  }

  function FailedOpenIn(c: Limits, calls: seq<Call>, v: Interval): nat {
    if calls == [] then 0
    else
      var last := calls[|calls| - 1];
      FailedOpenIn(c, calls[..|calls| - 1], v) + (if Within(v, last) && last.net != Delivered then 1 else 0)
  }

  function AllowedIn(c: Limits, calls: seq<Call>, v: Interval): nat {
    if calls == [] then 0
    else
      AllowedIn(c, calls[..|calls| - 1], v)
      + (if Within(v, calls[|calls| - 1]) && LastDecision(c, calls).allowed then 1 else 0)
  }

  lemma {:induction false} AllowedSplits(c: Limits, calls: seq<Call>, v: Interval)
    ensures AllowedIn(c, calls, v) == AdmittedIn(c, calls, v) + FailedOpenIn(c, calls, v)
  {
    hide Within;
    if calls != [] {
      AllowedSplits(c, calls[..|calls| - 1], v);
    }
  }

  // ---------------------------------------------------------------- by windows

  function AdmittedOver(c: Limits, calls: seq<Call>, keys: seq<string>): nat {
    if keys == [] then 0 else Admitted(c, calls, keys[0]) + AdmittedOver(c, calls, keys[1..])
  }

  predicate Distinct(keys: seq<string>) {
    forall i, j | 0 <= i < j < |keys| :: keys[i] != keys[j]
  }

  lemma {:induction false} OverNoCalls(c: Limits, keys: seq<string>)
    ensures AdmittedOver(c, [], keys) == 0
  {
    if keys != [] { OverNoCalls(c, keys[1..]); }
  }

  lemma {:induction false} OverOneMore(c: Limits, calls: seq<Call>, keys: seq<string>)
    requires calls != []
    ensures var before, key := AdmittedOver(c, calls[..|calls| - 1], keys), KeyOf(c, calls[|calls| - 1]);
      var more := if key in keys then LastAdmitted(c, calls) else 0;
      && AdmittedOver(c, calls, keys) >= before + more
      && (Distinct(keys) ==> AdmittedOver(c, calls, keys) == before + more)
    decreases |keys|
  {
    hide KeyOf, LastAdmitted;
    if keys != [] {
      OverOneMore(c, calls, keys[1..]);
      var key := KeyOf(c, calls[|calls| - 1]);
      assert key in keys <==> key == keys[0] || key in keys[1..];
      if Distinct(keys) {
        assert Distinct(keys[1..]);
        assert keys[0] !in keys[1..];
      }
    }
  }

  /** The keys cover the interval's calls. */
  predicate Covered(c: Limits, calls: seq<Call>, v: Interval, keys: seq<string>) {
    forall i | 0 <= i < |calls| && Within(v, calls[i]) :: KeyOf(c, calls[i]) in keys
  }

  lemma {:induction false} InIsOver(c: Limits, calls: seq<Call>, v: Interval, keys: seq<string>)
    requires Covered(c, calls, v, keys)
    ensures AdmittedIn(c, calls, v) <= AdmittedOver(c, calls, keys)
    ensures Distinct(keys) && (forall i | 0 <= i < |calls| :: Within(v, calls[i])) ==>
      AdmittedIn(c, calls, v) == AdmittedOver(c, calls, keys)
  {
    hide Within, KeyOf, LastAdmitted;
    if calls == [] {
      OverNoCalls(c, keys);
    } else {
      var before := calls[..|calls| - 1];
      assert forall i | 0 <= i < |before| :: before[i] == calls[i];
      InIsOver(c, before, v, keys);
      OverOneMore(c, calls, keys);
    }
  }

  lemma {:induction false} OverBounded(c: Limits, calls: seq<Call>, keys: seq<string>)
    requires WellTimed(calls)
    ensures AdmittedOver(c, calls, keys) <= |keys| * c.limit
  {
    hide WellTimed, Admitted, Wasted, Counted;
    if keys != [] {
      OverBounded(c, calls, keys[1..]);
      LimitExact(c, calls, keys[0]);
      TimesOneMore(|keys[1..]|, c.limit);
    }
  }

  lemma TimesOneMore(n: nat, m: nat)
    ensures (n + 1) * m == n * m + m
  {
  }

  /** An interval that meets so many windows admits at most the limit for each, and allows at most that and the
      calls that failed open in it. */
  lemma WindowsLimit(c: Limits, calls: seq<Call>, v: Interval, keys: seq<string>)
    requires WellTimed(calls) && Covered(c, calls, v, keys)
    ensures AdmittedIn(c, calls, v) <= |keys| * c.limit
    ensures AllowedIn(c, calls, v) <= |keys| * c.limit + FailedOpenIn(c, calls, v)
  {
    InIsOver(c, calls, v, keys);
    OverBounded(c, calls, keys);
    AllowedSplits(c, calls, v);
  }

  // ---------------------------------------------------------------- how many windows an interval meets

  lemma WindowAfter(c: Limits, t: nat)
    ensures WindowStart(c, t + 1000 * c.window) == WindowStart(c, t) + c.window
  {
    var d := 1000 * c.window;
    Quotient(t, d);
    assert d * (t / d + 1) == d * (t / d) + d;
    QuotientUnique(t + d, d, t / d + 1);
    assert (t / d + 1) * c.window == t / d * c.window + c.window;
  }

  /** The windows of the times from `from` to one, or two, window lengths later. */
  lemma WindowsMet(c: Limits, from: nat, t: nat)
    requires from <= t <= from + 2000 * c.window
    ensures var w := WindowStart(c, from);
      && WindowStart(c, t) in {w, w + c.window, w + c.window + c.window}
      && (t <= from + 1000 * c.window ==> WindowStart(c, t) in {w, w + c.window})
  {
    hide WindowStart;
    if t <= from + 1000 * c.window {
      NextWindow(c, from, t);
    } else {
      NextWindow(c, from, t - 1000 * c.window);
      WindowAfter(c, t - 1000 * c.window);
    }
  }

  function KeysFrom(c: Limits, identity: string, from: nat): (keys: seq<string>)
    ensures |keys| == 3
  {
    var w := WindowStart(c, from);
    [CounterKey(identity, w), CounterKey(identity, w + c.window), CounterKey(identity, w + c.window + c.window)]
  }

  lemma CoveredBy(c: Limits, calls: seq<Call>, v: Interval, from: nat)
    requires forall i | 0 <= i < |calls| && Within(v, calls[i]) :: from <= calls[i].now <= from + 2000 * c.window
    ensures Covered(c, calls, v, KeysFrom(c, v.identity, from))
    ensures (forall i | 0 <= i < |calls| && Within(v, calls[i]) :: calls[i].now <= from + 1000 * c.window) ==>
      Covered(c, calls, v, KeysFrom(c, v.identity, from)[..2])
  {
    hide WindowStart, CounterKey;
    forall i | 0 <= i < |calls| && Within(v, calls[i])
      ensures KeyOf(c, calls[i]) in KeysFrom(c, v.identity, from)
      ensures calls[i].now <= from + 1000 * c.window ==> KeyOf(c, calls[i]) in KeysFrom(c, v.identity, from)[..2]
    {
      WindowsMet(c, from, calls[i].now);
      var keys := KeysFrom(c, v.identity, from);
      assert keys[..2][0] == keys[0] && keys[..2][1] == keys[1];
    }
  }

  /** On the replicas' own clocks any interval as long as a window admits at most twice the limit. */
  lemma IntervalLimit(c: Limits, calls: seq<Call>, identity: string, from: nat)
    requires WellTimed(calls)
    ensures var v := Interval(identity, false, from, 1000 * c.window);
      && AdmittedIn(c, calls, v) <= 2 * c.limit
      && AllowedIn(c, calls, v) <= 2 * c.limit + FailedOpenIn(c, calls, v)
  {
    hide WellTimed, KeysFrom;
    var v := Interval(identity, false, from, 1000 * c.window);
    CoveredBy(c, calls, v, from);
    WindowsLimit(c, calls, v, KeysFrom(c, identity, from)[..2]);
  }

  /** In real time, that is on Redis's clock, which a replica's may differ from by half a second, an interval as
      long as a window admits at most three times the limit, and one shorter by almost a second at most twice. If
      all clocks agree, it is twice over the whole window. */
  lemma ServerIntervalLimit(c: Limits, calls: seq<Call>, identity: string, from: nat, length: nat)
    requires WellTimed(calls)
    ensures var v := Interval(identity, true, from, length);
      && (length <= 1000 * c.window ==>
            AdmittedIn(c, calls, v) <= 3 * c.limit
            && AllowedIn(c, calls, v) <= 3 * c.limit + FailedOpenIn(c, calls, v))
      && (length <= 1000 * c.window - 999 ==>
            AdmittedIn(c, calls, v) <= 2 * c.limit
            && AllowedIn(c, calls, v) <= 2 * c.limit + FailedOpenIn(c, calls, v))
      && (length <= 1000 * c.window && (forall i | 0 <= i < |calls| :: calls[i].now == calls[i].server) ==>
            AdmittedIn(c, calls, v) <= 2 * c.limit
            && AllowedIn(c, calls, v) <= 2 * c.limit + FailedOpenIn(c, calls, v))
  {
    var v := Interval(identity, true, from, length);
    var early := if from < 500 then 0 else from - 500;
    if length <= 1000 * c.window {
      assert forall i | 0 <= i < |calls| && Within(v, calls[i]) :: InStep(calls[i]);
      CoveredBy(c, calls, v, early);
      WindowsLimit(c, calls, v, KeysFrom(c, identity, early));
      if length <= 1000 * c.window - 999 {
        WindowsLimit(c, calls, v, KeysFrom(c, identity, early)[..2]);
      }
      if forall i | 0 <= i < |calls| :: calls[i].now == calls[i].server {
        CoveredBy(c, calls, v, from);
        WindowsLimit(c, calls, v, KeysFrom(c, identity, from)[..2]);
      }
    }
  }

  // ---------------------------------------------------------------- runs that reach the bounds

  function Block(n: nat, call: Call): (calls: seq<Call>)
    ensures |calls| == n
  {
    seq(n, _ => call)
  }

  lemma {:induction false} CountedBlock(c: Limits, before: seq<Call>, n: nat, call: Call, key: string)
    requires call.net == Delivered
    ensures Counted(c, before + Block(n, call), key)
      == Counted(c, before, key) + (if KeyOf(c, call) == key then n else 0)
  {
    hide KeyOf;
    var calls := before + Block(n, call);
    if n > 0 {
      CountedBlock(c, before, n - 1, call, key);
      assert calls[..|calls| - 1] == before + Block(n - 1, call);
    } else {
      assert calls == before;
    }
  }

  lemma {:induction false} NothingWasted(c: Limits, calls: seq<Call>, key: string)
    requires forall i | 0 <= i < |calls| :: calls[i].net == Delivered
    ensures Wasted(c, calls, key) == 0
  {
    if calls != [] { NothingWasted(c, calls[..|calls| - 1], key); }
  }

  /** Windows used up to the limit, all in the interval, admit exactly that. */
  lemma {:induction false} UsedUp(c: Limits, calls: seq<Call>, keys: seq<string>)
    requires WellTimed(calls) && forall i | 0 <= i < |calls| :: calls[i].net == Delivered
    requires forall k | k in keys :: Counted(c, calls, k) == c.limit
    ensures AdmittedOver(c, calls, keys) == |keys| * c.limit
    decreases |keys|
  {
    hide WellTimed, Admitted, Wasted, Counted;
    if keys != [] {
      assert forall k | k in keys[1..] :: k in keys;
      UsedUp(c, calls, keys[1..]);
      LimitExact(c, calls, keys[0]);
      NothingWasted(c, calls, keys[0]);
      TimesOneMore(|keys[1..]|, c.limit);
    }
  }

  /** So many of each of these calls, in turn. */
  function Blocks(n: nat, xs: seq<Call>): seq<Call> {
    if xs == [] then [] else Blocks(n, xs[..|xs| - 1]) + Block(n, xs[|xs| - 1])
  }

  function KeysOf(c: Limits, xs: seq<Call>): (keys: seq<string>)
    ensures |keys| == |xs| && forall i | 0 <= i < |xs| :: keys[i] == KeyOf(c, xs[i])
  {
    seq(|xs|, i requires 0 <= i < |xs| => KeyOf(c, xs[i]))
  }

  lemma {:induction false} BlocksAreThese(n: nat, xs: seq<Call>)
    ensures forall call | call in Blocks(n, xs) :: call in xs
  {
    if xs != [] { BlocksAreThese(n, xs[..|xs| - 1]); }
  }

  lemma {:induction false} BlocksTimed(n: nat, xs: seq<Call>)
    requires WellTimed(xs)
    ensures WellTimed(Blocks(n, xs))
  {
    if xs != [] {
      var rest, last := xs[..|xs| - 1], xs[|xs| - 1];
      BlocksTimed(n, rest);
      BlocksAreThese(n, rest);
      var calls := Blocks(n, rest);
      assert forall i | 0 <= i < |calls| :: calls[i] in rest;
    }
  }

  lemma {:induction false} BlocksCounted(c: Limits, n: nat, xs: seq<Call>, key: string)
    requires Distinct(KeysOf(c, xs)) && forall i | 0 <= i < |xs| :: xs[i].net == Delivered
    ensures Counted(c, Blocks(n, xs), key) == if key in KeysOf(c, xs) then n else 0
  {
    hide KeyOf;
    if xs != [] {
      var rest, last := xs[..|xs| - 1], xs[|xs| - 1];
      assert KeysOf(c, xs) == KeysOf(c, rest) + [KeyOf(c, last)];
      BlocksCounted(c, n, rest, key);
      CountedBlock(c, Blocks(n, rest), n, last, key);
      assert KeyOf(c, last) !in KeysOf(c, rest);
    }
  }

  /** On different windows, blocks of `limit` calls are all admitted. */
  lemma BlocksAdmitted(c: Limits, xs: seq<Call>, v: Interval)
    requires WellTimed(xs) && Distinct(KeysOf(c, xs))
    requires forall i | 0 <= i < |xs| :: xs[i].net == Delivered && Within(v, xs[i])
    ensures WellTimed(Blocks(c.limit, xs)) && AdmittedIn(c, Blocks(c.limit, xs), v) == |xs| * c.limit
  {
    hide KeyOf, Within, WellTimed, Counted, Blocks, AdmittedIn, AdmittedOver;
    var calls, keys := Blocks(c.limit, xs), KeysOf(c, xs);
    BlocksTimed(c.limit, xs);
    BlocksAreThese(c.limit, xs);
    forall k | k in keys ensures Counted(c, calls, k) == c.limit {
      BlocksCounted(c, c.limit, xs, k);
    }
    forall i | 0 <= i < |calls| ensures calls[i].net == Delivered && Within(v, calls[i]) && KeyOf(c, calls[i]) in keys {
      assert calls[i] in xs;
      var j :| 0 <= j < |xs| && xs[j] == calls[i];
      assert keys[j] == KeyOf(c, xs[j]);
    }
    UsedUp(c, calls, keys);
    InIsOver(c, calls, v, keys);
  }

  /** In the last moment of one window, in the next, and in the first moment of the one after. The first call is
      served by a replica half a second behind Redis, the last by one half a second ahead. */
  function Skewed(c: Limits): seq<Call> {
    var t := 1000 * c.window;
    [Call("client", t - 1, t + 499, Delivered), Call("client", 2 * t - 500, 2 * t - 500, Delivered),
     Call("client", 2 * t, 2 * t - 500, Delivered)]
  }

  /** In the last moment of one window and the first of the next, on clocks that agree. */
  function Adjoining(c: Limits): (xs: seq<Call>)
    ensures |xs| == 2 && forall i | 0 <= i < |xs| :: xs[i].net == Delivered
  {
    var t := 1000 * c.window;
    [Call("client", t - 1, t - 1, Delivered), Call("client", t, t, Delivered)]
  }

  /** For every limit and window a run that reaches three times the limit within a second less than the window. */
  lemma ThriceIsReached(c: Limits, length: nat)
    requires length >= 1000 * c.window - 998
    ensures var calls := Blocks(c.limit, Skewed(c));
      && WellTimed(calls)
      && AdmittedIn(c, calls, Interval("client", true, 1000 * c.window + 499, length)) == 3 * c.limit
  {
    SkewedWindows(c);
    SkewedKeys(c);
    hide KeyOf, Blocks, AdmittedIn;
    BlocksAdmitted(c, Skewed(c), Interval("client", true, 1000 * c.window + 499, length));
  }

  /** For every limit and window a run that reaches twice the limit within two milliseconds. */
  lemma IntervalLimitIsTight(c: Limits, onServer: bool)
    ensures var calls := Blocks(c.limit, Adjoining(c));
      && WellTimed(calls) && (forall i | 0 <= i < |calls| :: calls[i].now == calls[i].server)
      && AdmittedIn(c, calls, Interval("client", onServer, 1000 * c.window - 1, 2)) == 2 * c.limit
  {
    SkewedWindows(c);
    AdjoiningKeys(c);
    var xs, v := Adjoining(c), Interval("client", onServer, 1000 * c.window - 1, 2);
    assert WellTimed(xs) && Within(v, xs[0]) && Within(v, xs[1]);
    assert xs[0].now == xs[0].server && xs[1].now == xs[1].server;
    hide KeyOf, Blocks, AdmittedIn, WellTimed, Within, Adjoining;
    BlocksAreThese(c.limit, xs);
    BlocksAdmitted(c, xs, v);
    var calls := Blocks(c.limit, xs);
    forall i | 0 <= i < |calls| ensures calls[i].now == calls[i].server {
      assert calls[i] in xs;
    }
  }

  lemma SkewedWindows(c: Limits)
    ensures var t := 1000 * c.window; WindowStart(c, t - 1) < WindowStart(c, 2 * t - 500) < WindowStart(c, 2 * t)
    ensures var t := 1000 * c.window; WindowStart(c, t - 1) < WindowStart(c, t)
  {
    var t := 1000 * c.window;
    WindowAfter(c, t - 500);
    WindowAfter(c, t);
    WindowAfter(c, 0);
    QuotientUnique(t - 1, t, 0);
    QuotientUnique(t - 500, t, 0);
    QuotientUnique(0, t, 0);
  }

  lemma SkewedKeys(c: Limits)
    requires var t := 1000 * c.window; WindowStart(c, t - 1) < WindowStart(c, 2 * t - 500) < WindowStart(c, 2 * t)
    ensures Distinct(KeysOf(c, Skewed(c)))
  {
    hide WindowStart, CounterKey;
    var xs := Skewed(c);
    ApartKeys(c, xs[0], xs[1]);
    ApartKeys(c, xs[1], xs[2]);
    ApartKeys(c, xs[0], xs[2]);
  }

  lemma AdjoiningKeys(c: Limits)
    requires WindowStart(c, 1000 * c.window - 1) < WindowStart(c, 1000 * c.window)
    ensures Distinct(KeysOf(c, Adjoining(c)))
  {
    hide WindowStart, CounterKey;
    ApartKeys(c, Adjoining(c)[0], Adjoining(c)[1]);
  }

  lemma ApartKeys(c: Limits, x: Call, y: Call)
    requires WindowStart(c, x.now) != WindowStart(c, y.now)
    ensures KeyOf(c, x) != KeyOf(c, y)
  {
    hide WindowStart, CounterKey;
    if KeyOf(c, x) == KeyOf(c, y) {
      KeysInjective(x.identity, WindowStart(c, x.now), y.identity, WindowStart(c, y.now));
    }
  }

  /** Every interval of this length on Redis's clock, in every run. */
  ghost predicate TwiceAtMost(c: Limits, length: nat) {
    forall calls: seq<Call>, identity: string, from: nat | WellTimed(calls) ::
      AdmittedIn(c, calls, Interval(identity, true, from, length)) <= 2 * c.limit
  }

  /** Twice the limit is never exceeded exactly in intervals at least 999 milliseconds short of a window. */
  lemma TwiceExactlyIf(c: Limits, length: nat)
    requires c.limit >= 1
    ensures TwiceAtMost(c, length) <==> length <= 1000 * c.window - 999
  {
    hide WellTimed, AdmittedIn;
    if length <= 1000 * c.window - 999 {
      forall calls: seq<Call>, identity: string, from: nat | WellTimed(calls)
        ensures AdmittedIn(c, calls, Interval(identity, true, from, length)) <= 2 * c.limit
      {
        ServerIntervalLimit(c, calls, identity, from, length);
      }
    } else {
      ThriceIsReached(c, length);
    }
  }
}
