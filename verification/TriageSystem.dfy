/** Triage as a concurrent system: any number of calls on any number of replicas share one Redis, their
    operations interleave freely, any of them may be lost, the provider may answer or raise as it likes,
    and other clients may write anything under a triage key. */
module TriageSystem {
  import opened Text
  import opened Contract
  import opened Cache
  import CacheKey
  import Rules

  const CACHE_PREFIX := "triage:v1:"
  const HITS_KEY := "triage:cache:hits"
  const MISSES_KEY := "triage:cache:misses"
  const RECENT_KEY := "triage:recent"
  const RECENT_CAP := 20
  const FALLBACK_NAME := "rules:fallback"

  /** The digest of `content_hash`, taken to be free of collisions. */
  type Digest = f: string -> string | forall s, t :: f(s) == f(t) ==> s == t ghost witness s => s

  datatype Config = Config(lower: Lower, digest: Digest, float: FloatReader, ttl: int, name: string)

  /** The name of the exception a provider, or the service itself, raises. */
  type ErrorName = string

  datatype Outcome = Outcome(
    result: TriageResult, triagedBy: Json, latencyMs: nat, fallback: bool, cached: bool, error: Option<ErrorName>)

  datatype Reply = Returns(result: TriageResult) | Raises(error: ErrorName)

  type Cid = string

  /** Where a call is: each phase is named for what it does next, the last two for how it ended. */
  datatype Phase =
    | Looking
    | CountingHit(outcome: Outcome)
    | Discarding
    | CountingMiss
    | Asking
    | Keeping(outcome: Outcome)
    | Recording(outcome: Outcome)
    | Done(outcome: Outcome)
    | Threw(error: ErrorName)

  datatype Call = Call(text: string, location: string, phase: Phase)

  /** What the provider has returned, and to whom. */
  datatype Given = Given(text: string, location: string, result: TriageResult)

  /** What this service last stored under a key, and when. */
  datatype Kept = Kept(given: Given, at: nat)

  /** `given`, `kept`, `pushed` (with `order`, the calls that pushed) and the counts of lost operations are
      histories. `touched` holds the keys other clients have ever written, `tampered` those whose present
      entry they wrote. */
  datatype Sys = Sys(
    config: Config,
    redis: Redis<Json>,
    calls: map<Cid, Call>,
    given: set<Given>,
    kept: map<string, Kept>,
    tampered: set<string>,
    touched: set<string>,
    order: seq<Cid>,
    pushed: seq<Json>,
    lostHits: nat,
    lostMisses: nat,
    lostPushes: nat)

  datatype Event =
    | Tick(ms: nat)
    | Begin(c: Cid, text: string, location: string)
    | Get(c: Cid, up: bool, ms: nat)
    | Discard(c: Cid, up: bool)
    | Count(c: Cid, up: bool)
    | Ask(c: Cid, reply: Reply, ms: nat)
    | Keep(c: Cid, up: bool)
    | Push(c: Cid, up: bool, at: string)
    | Tamper(key: string, raw: Raw<Json>, expires: nat)

  function KeyFor(f: Config, text: string, location: string): string {
    CACHE_PREFIX + f.digest(CacheKey.KeyText(f.lower, text, location))
  }

  /** The cached form of an answer. */
  function Payload(result: TriageResult, name: string): Json {
    JObject(map["result" := Dump(result), "triaged_by" := JString(name)])
  }

  /** The record of an outcome shown to operators. */
  function RecordOf(c: Cid, o: Outcome, at: string): Json {
    JObject(map[
      "complaint_id" := JString(c),
      "provider" := o.triagedBy,
      "latency_ms" := JNumber(o.latencyMs as real),
      "fallback" := JBool(o.fallback),
      "cached" := JBool(o.cached),
      "error" := if o.error.None? then JNull else JString(o.error.value),
      "at" := JString(at)])
  }

  /** What a call makes of what it finds under its key. */
  function Examine(f: Config, found: Fetched<Json>, ms: nat): Phase {
    match found
    case Missing => CountingMiss
    case DecodeError => Threw("JSONDecodeError")
    case Found(JNull) => CountingMiss
    case Found(JObject(fields)) =>
      if "result" !in fields then Discarding
      else
        var result := Validate(fields["result"], f.float);
        if result.None? || "triaged_by" !in fields then Discarding
        else CountingHit(Outcome(result.value, fields["triaged_by"], ms, false, true, None))
    case Found(_) => Threw("TypeError")
  }

  /** What a call makes of the provider's reply: its answer, or the rules' in its place. */
  function Settle(f: Config, text: string, location: string, reply: Reply, ms: nat): Phase {
    match reply
    case Returns(result) => Keeping(Outcome(result, JString(f.name), ms, false, false, None))
    case Raises(error) =>
      var result := Rules.Triage(f.lower, text, location);
      if result.None? then Threw("ValidationError")
      else Recording(Outcome(result.value, JString(FALLBACK_NAME), ms, true, false, Some(error)))
  }

  function PhaseOf(s: Sys, c: Cid): Phase
    requires c in s.calls
  {
    s.calls[c].phase
  }

  predicate Enabled(s: Sys, e: Event) {
    match e
    case Tick(_) => true
    case Begin(c, _, _) => c !in s.calls
    case Get(c, _, _) => c in s.calls && PhaseOf(s, c).Looking?
    case Discard(c, _) => c in s.calls && PhaseOf(s, c).Discarding?
    case Count(c, _) => c in s.calls && (PhaseOf(s, c).CountingHit? || PhaseOf(s, c).CountingMiss?)
    case Ask(c, reply, _) => c in s.calls && PhaseOf(s, c).Asking? && (reply.Returns? ==> Promised(reply.result))
    case Keep(c, _) => c in s.calls && PhaseOf(s, c).Keeping?
    case Push(c, _, _) => c in s.calls && PhaseOf(s, c).Recording?
    case Tamper(_, _, _) => true
  }

  function To(s: Sys, c: Cid, p: Phase): Sys
    requires c in s.calls
  {
    s.(calls := s.calls[c := s.calls[c].(phase := p)])
  }

  function Key(s: Sys, c: Cid): string
    requires c in s.calls
  {
    KeyFor(s.config, s.calls[c].text, s.calls[c].location)
  }

  function Apply(s: Sys, e: Event): Sys
    requires Enabled(s, e)
  {
    match e
    case Tick(ms) => s.(redis := s.redis.(now := s.redis.now + ms))
    case Begin(c, text, location) => s.(calls := s.calls[c := Call(text, location, Looking)])
    case Get(c, up, ms) =>
      To(s, c, Examine(s.config, if up then Lookup(s.redis, Key(s, c)) else Missing, ms))
    case Discard(c, up) =>
      var t := if up then s.(redis := Drop(s.redis, Key(s, c))) else s;
      To(t, c, CountingMiss)
    case Count(c, up) =>
      if PhaseOf(s, c).CountingHit? then
        var t := if up then s.(redis := Bump(s.redis, HITS_KEY)) else s.(lostHits := s.lostHits + 1);
        To(t, c, Recording(PhaseOf(s, c).outcome))
      else
        var t := if up then s.(redis := Bump(s.redis, MISSES_KEY)) else s.(lostMisses := s.lostMisses + 1);
        To(t, c, Asking)
    case Ask(c, reply, ms) =>
      var call := s.calls[c];
      var t := if reply.Returns? then s.(given := s.given + {Given(call.text, call.location, reply.result)}) else s;
      To(t, c, Settle(s.config, call.text, call.location, reply, ms))
    case Keep(c, up) =>
      var call, o, key := s.calls[c], PhaseOf(s, c).outcome, Key(s, c);
      var t := if up && s.config.ttl > 0 then
                 s.(redis := Put(s.redis, key, Payload(o.result, s.config.name), s.config.ttl),
                    kept := s.kept[key := Kept(Given(call.text, call.location, o.result), s.redis.now)],
                    tampered := s.tampered - {key})
               else s;
      To(t, c, Recording(o))
    case Push(c, up, at) =>
      var o := PhaseOf(s, c).outcome;
      var record := RecordOf(c, o, at);
      var t := if up then s.(redis := Cache.Push(s.redis, RECENT_KEY, record, RECENT_CAP),
                    pushed := s.pushed + [record], order := s.order + [c])
               else s.(lostPushes := s.lostPushes + 1);
      To(t, c, Done(o))
    case Tamper(key, raw, expires) =>
      s.(redis := s.redis.(strings := s.redis.strings[key := Entry(raw, expires)]),
         tampered := s.tampered + {key}, touched := s.touched + {key})
  }

  predicate Initial(s: Sys) {
    && s.redis.strings == map[] && s.redis.counters == map[] && s.redis.lists == map[]
    && s.calls == map[] && s.given == {} && s.kept == map[] && s.tampered == {} && s.touched == {}
    && s.order == [] && s.pushed == []
    && s.lostHits == 0 && s.lostMisses == 0 && s.lostPushes == 0
  }

  /** Every event of the run was possible when it happened. */
  predicate Legal(s: Sys, run: seq<Event>)
    decreases |run|
  {
    run == [] || (Legal(s, run[..|run| - 1]) && Enabled(After(s, run[..|run| - 1]), run[|run| - 1]))
  }

  /** The state a run leads to; an event that is not possible changes nothing. */
  function After(s: Sys, run: seq<Event>): Sys {
    if run == [] then s
    else
      var t := After(s, run[..|run| - 1]);
      if Enabled(t, run[|run| - 1]) then Apply(t, run[|run| - 1]) else t
  }
}
