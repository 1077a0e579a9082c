/** The triage service's own code, run against an adversarial environment: before each of its operations
    other clients do whatever they like. Each operation is checked against the step of the triage system it
    claims to be, so everything proved of runs holds of the code. */
module TriageServices {
  import opened Contract
  import opened Cache
  import opened TriageSystem
  import opened TriageTheorems
  import Rules

  function Unused(config: Config): (s: Sys)
    ensures Initial(s) && s.redis == Redis(0, map[], map[], map[]) && s.config == config && s.calls == map[]
  {
    Sys(config, Redis(0, map[], map[], map[]), map[], {}, map[], {}, {}, [], [], 0, 0, 0)
  }

  lemma KeepStep(s: Sys, e: Event)
    requires Enabled(s, e) && e.Keep?
    ensures var s', o := Apply(s, e), PhaseOf(s, e.c).outcome;
      && s'.redis == (if e.up then Put(s.redis, Key(s, e.c), Payload(o.result, s.config.name), s.config.ttl)
                      else s.redis)
      && s'.calls == s.calls[e.c := s.calls[e.c].(phase := Recording(o))]
  {
    hide Key, Payload;
  }

  lemma StartIsLegal(s: Sys)
    ensures Legal(s, []) && After(s, []) == s
  {
  }

  /** Event `e` is among those by which the run has grown. */
  ghost predicate Did(before: seq<Event>, after: seq<Event>, e: Event) {
    before < after && exists k :: |before| <= k < |after| && after[k] == e
  }

  lemma Chain(start: seq<Event>, mid: seq<Event>, end: seq<Event>, e: Event, e': Event)
    requires Did(start, mid, e) && Did(mid, end, e')
    ensures Did(start, end, e) && Did(start, end, e')
  {
    var k :| |start| <= k < |mid| && mid[k] == e;
    assert end[k] == e;
  }

  /** `found` is what Redis held under `key`, if it could be reached, when call `c` asked for it during the run
      from `before` on. */
  ghost predicate Looked(origin: Sys, before: seq<Event>, run: seq<Event>, c: Cid, key: string, env: Environment,
                         found: Fetched<Json>)
  {
    exists k ::
      && |before| <= k < |run| && run[k] == TriageSystem.Get(c, env.up(0), env.ms(0))
      && found == FoundAt(origin, run, k, key, env.up(0))
  }

  function FoundAt(origin: Sys, run: seq<Event>, k: nat, key: string, up: bool): Fetched<Json>
    requires k <= |run|
  {
    if up then Lookup(After(origin, run[..k]).redis, key) else Missing
  }

  lemma StillLooked(origin: Sys, start: seq<Event>, mid: seq<Event>, end: seq<Event>, e: Event, c: Cid, key: string,
                    env: Environment, found: Fetched<Json>)
    requires Looked(origin, start, mid, c, key, env, found) && Did(mid, end, e)
    ensures Looked(origin, start, end, c, key, env, found)
  {
    var k :| |start| <= k < |mid| && mid[k] == TriageSystem.Get(c, env.up(0), env.ms(0))
      && found == FoundAt(origin, mid, k, key, env.up(0));
    assert end[k] == mid[k] && end[..k] == mid[..k];
  }

  lemma LookedSince(origin: Sys, start: seq<Event>, mid: seq<Event>, end: seq<Event>, e: Event, c: Cid, key: string,
                    env: Environment, found: Fetched<Json>)
    requires Did(start, mid, e) && Looked(origin, mid, end, c, key, env, found)
    ensures Looked(origin, start, end, c, key, env, found)
  {
    var k :| |mid| <= k < |end| && end[k] == TriageSystem.Get(c, env.up(0), env.ms(0))
      && found == FoundAt(origin, end, k, key, env.up(0));
    assert |start| <= k;
  }

  /** What is found is neither nothing nor an object. */
  predicate Unreadable(found: Fetched<Json>) {
    found.DecodeError? || (found.Found? && found.value != JNull && !found.value.JObject?)
  }

  /** What is found is an object with a valid result and the name of who gave it. */
  predicate Usable(f: Config, found: Fetched<Json>) {
    && found.Found? && found.value.JObject?
    && "result" in found.value.fields && "triaged_by" in found.value.fields
    && Validate(found.value.fields["result"], f.float).Some?
  }

  /** What is found is an object, but not of use. */
  predicate Poisoned(f: Config, found: Fetched<Json>) {
    found.Found? && found.value.JObject? && !Usable(f, found)
  }

  /** The outcome a usable entry stands for. */
  function CachedOutcome(f: Config, found: Fetched<Json>, ms: nat): Outcome
    requires Usable(f, found)
  {
    var fields := found.value.fields;
    Outcome(Validate(fields["result"], f.float).value, fields["triaged_by"], ms, false, true, None)
  }

  /** What becomes of each kind of find. */
  lemma FindsExamined(f: Config, found: Fetched<Json>, ms: nat)
    ensures Usable(f, found) ==> Examine(f, found, ms) == CountingHit(CachedOutcome(f, found, ms))
    ensures Poisoned(f, found) ==> Examine(f, found, ms) == Discarding
    ensures Unreadable(found) <==> Examine(f, found, ms).Threw?
    ensures !Usable(f, found) && !Poisoned(f, found) && !Unreadable(found) ==> Examine(f, found, ms) == CountingMiss
  {
    hide Validate;
  }

  /** A call cannot be served if what it finds is unreadable, or if it finds no usable answer, the provider
      raises and the rules fail too. */
  predicate Unserveable(f: Config, text: string, location: string, found: Fetched<Json>, reply: Reply) {
    || Unreadable(found)
    || (!Usable(f, found) && reply.Raises? && Rules.Triage(f.lower, text, location).None?)
  }

  /** An outcome that does not come from the cache is the provider's own reply, or what the rules make of the
      complaint when the provider raised. */
  ghost predicate FollowsReply(f: Config, text: string, location: string, env: Environment, o: Outcome) {
    match env.reply
    case Returns(result) => o == Outcome(result, JString(f.name), env.ms(3), false, false, None)
    case Raises(error) =>
      && Rules.Triage(f.lower, text, location) == Some(o.result)
      && o == Outcome(o.result, JString("rules:fallback"), env.ms(3), true, false, Some(error))
  }

  /** The environment's choices during one call: what others do before its k-th operation, whether that
      operation reaches Redis, the latency so far, the provider's reply, and the time of day. */
  datatype Environment = Environment(
    others: nat -> seq<Event>, up: nat -> bool, ms: nat -> nat, reply: Reply, at: string)

  /** The one Redis server, and the position every call has reached. */
  class TriageBackend {
    const cache: JsonCache<Json>
    const config: Config
    /** The system as a whole: its Redis is `cache.redis`. */
    var sys: Sys
    ghost const origin: Sys
    ghost var run: seq<Event>

    ghost predicate Valid()
      reads this, cache
    {
      && Initial(origin) && Legal(origin, run) && After(origin, run) == sys
      && sys.redis == cache.redis && sys.config == config
    }

    constructor (config: Config)
      ensures Valid() && fresh(cache) && this.config == config && sys.calls == map[] && run == []
    {
      hide Initial, Legal, After, Unused;
      this.config := config;
      cache := new JsonCache<Json>(Redis(0, map[], map[], map[]));
      var s := Unused(config);
      sys, origin, run := s, s, [];
      StartIsLegal(s);
    }

    /** Books an operation that the caller has just carried out on `cache`: it must have had exactly the
        effect of the step it is booked as. */
    method Record(e: Event)
      requires Initial(origin) && Legal(origin, run) && After(origin, run) == sys && sys.config == config
      requires Enabled(sys, e) && cache.redis == Apply(sys, e).redis
      modifies this
      ensures Valid() && sys == Apply(old(sys), e) && run == old(run) + [e]
    {
      hide Apply, Initial;
      assert (run + [e])[..|run + [e]| - 1] == run;
      Frame(sys, e);
      sys := Apply(sys, e);
      run := run + [e];
    }

    /** What other calls, other clients and the clock do before call `c`'s next operation. */
    method Others(c: Cid, script: seq<Event>)
      requires Valid()
      modifies this, cache
      ensures Valid() && old(run) <= run
      ensures c in sys.calls <==> c in old(sys).calls
      ensures c in sys.calls ==> sys.calls[c] == old(sys).calls[c]
    {
      for i := 0 to |script|
        invariant Valid() && old(run) <= run
        invariant c in sys.calls <==> c in old(sys).calls
        invariant c in sys.calls ==> sys.calls[c] == old(sys).calls[c]
      {
        var e := script[i];
        if Actor(e) != Some(c) && Enabled(sys, e) {
          Frame(sys, e);
          cache.redis := Apply(sys, e).redis;
          Record(e);
        }
      }
    }

    /** Call `c` is under way and about to do what `phase` says. */
    ghost predicate At(c: Cid, text: string, location: string, phase: Phase)
      reads this, cache
    {
      Valid() && c in sys.calls && sys.calls[c] == Call(text, location, phase)
    }

    // The operations of a call, each preceded by whatever others do in the meantime.

    method Get(c: Cid, text: string, location: string, key: string, env: Environment) returns (found: Fetched<Json>)
      requires At(c, text, location, Looking) && key == KeyFor(config, text, location)
      modifies this, cache
      ensures At(c, text, location, Examine(config, found, env.ms(0)))
      ensures Did(old(run), run, TriageSystem.Get(c, env.up(0), env.ms(0)))
      ensures Looked(origin, old(run), run, c, key, env, found)
    {
      hide Examine, KeyFor, Legal, After, Initial, Rules.Triage, Payload, RecordOf;
      Others(c, env.others(0));
      found := cache.Get(key, env.up(0));
      ghost var n := |run|;
      ghost var before := run;
      Record(TriageSystem.Get(c, env.up(0), env.ms(0)));
      assert run[..n] == before;
      assert run[n] == TriageSystem.Get(c, env.up(0), env.ms(0)) && found == FoundAt(origin, run, n, key, env.up(0));
    }

    method Delete(c: Cid, text: string, location: string, key: string, env: Environment)
      requires At(c, text, location, Discarding) && key == KeyFor(config, text, location)
      modifies this, cache
      ensures At(c, text, location, CountingMiss) && Did(old(run), run, Discard(c, env.up(1)))
    {
      hide KeyFor, Legal, After, Initial, Rules.Triage, Validate, Payload, RecordOf;
      Others(c, env.others(1));
      cache.Delete(key, env.up(1));
      ghost var n := |run|;
      Record(Discard(c, env.up(1)));
      assert run[n] == Discard(c, env.up(1));
    }

    method Incr(c: Cid, text: string, location: string, key: string, phase: Phase, env: Environment)
      requires At(c, text, location, phase)
      requires (phase.CountingHit? && key == HITS_KEY) || (phase.CountingMiss? && key == MISSES_KEY)
      modifies this, cache
      ensures At(c, text, location, if phase.CountingHit? then Recording(phase.outcome) else Asking)
      ensures Did(old(run), run, Count(c, env.up(2)))
    {
      hide KeyFor, Legal, After, Initial, Rules.Triage, Validate, Payload, RecordOf;
      Others(c, env.others(2));
      cache.Incr(key, env.up(2));
      ghost var n := |run|;
      Record(Count(c, env.up(2)));
      assert run[n] == Count(c, env.up(2));
    }

    method AskProvider(c: Cid, text: string, location: string, env: Environment) returns (reply: Reply)
      requires At(c, text, location, Asking) && (env.reply.Returns? ==> Promised(env.reply.result))
      modifies this, cache
      ensures reply == env.reply
      ensures At(c, text, location, Settle(config, text, location, reply, env.ms(3)))
      ensures Did(old(run), run, Ask(c, reply, env.ms(3)))
    {
      hide Settle, Promised, KeyFor, Legal, After, Initial, Validate, Payload, RecordOf;
      Others(c, env.others(3));
      reply := env.reply;
      ghost var n := |run|;
      Record(Ask(c, reply, env.ms(3)));
      assert run[n] == Ask(c, reply, env.ms(3));
    }

    method Set(c: Cid, text: string, location: string, key: string, value: Json, ttl: int, o: Outcome, env: Environment)
      requires At(c, text, location, Keeping(o)) && key == KeyFor(config, text, location)
      requires value == Payload(o.result, config.name) && ttl == config.ttl
      modifies this, cache
      ensures At(c, text, location, Recording(o)) && Did(old(run), run, Keep(c, env.up(4)))
    {
      hide KeyFor, Payload, Apply, Initial, Legal, After;
      Others(c, env.others(4));
      KeepStep(sys, Keep(c, env.up(4)));
      cache.Set(key, value, ttl, env.up(4));
      ghost var n := |run|;
      Record(Keep(c, env.up(4)));
      assert run[n] == Keep(c, env.up(4));
    }

    method PushCapped(c: Cid, text: string, location: string, value: Json, o: Outcome, env: Environment)
      requires At(c, text, location, Recording(o)) && value == RecordOf(c, o, env.at)
      modifies this, cache
      ensures At(c, text, location, Done(o)) && Did(old(run), run, TriageSystem.Push(c, env.up(5), env.at))
    {
      hide RecordOf, KeyFor, Legal, After, Initial, Rules.Triage, Validate, Payload;
      Others(c, env.others(5));
      cache.PushCapped(RECENT_KEY, value, RECENT_CAP, env.up(5));
      ghost var n := |run|;
      Record(TriageSystem.Push(c, env.up(5), env.at));
      assert run[n] == TriageSystem.Push(c, env.up(5), env.at);
    }
  }

  datatype Served = Served(outcome: Outcome) | Raised(error: ErrorName)

  class TriageService {
    const backend: TriageBackend

    constructor (backend: TriageBackend)
      ensures this.backend == backend
    {
      this.backend := backend;
    }

    /** Every call ends booked as it was served: with an outcome that keeps the contract and, unless it comes
        from the cache, follows from the provider's reply, or with an exception, for which other clients' writes
        or an unsummarisable location must be to blame. */
    method Triage(c: Cid, text: string, location: string, env: Environment)
      returns (r: Served, ghost found: Fetched<Json>)
      requires backend.Valid() && c !in backend.sys.calls
      requires env.reply.Returns? ==> Promised(env.reply.result)
      modifies backend, backend.cache
      ensures backend.At(c, text, location, match r case Served(o) => Done(o) case Raised(e) => Threw(e))
      ensures Looked(
        backend.origin, old(backend.run), backend.run, c, KeyFor(backend.config, text, location), env, found)
      ensures r.Raised? <==> Unserveable(backend.config, text, location, found, env.reply)
      ensures Follows(old(backend.run), c, env, found, r)
      ensures r.Served? ==> Promised(r.outcome.result) && Accounted(old(backend.run), c, env, r.outcome)
      ensures r.Served? && !r.outcome.cached ==> FollowsReply(backend.config, text, location, env, r.outcome)
      ensures r.Served? ==>
        KeyFor(backend.config, text, location) in backend.sys.touched
        || r.outcome.triagedBy in {JString(backend.config.name), JString(FALLBACK_NAME)}
      ensures r.Raised? ==>
        KeyFor(backend.config, text, location) in backend.sys.touched
        || (env.reply.Raises? && Rules.Triage(backend.config.lower, text, location).None?)
    {
      hide Legal, After, Initial, Rules.Triage, Validate, Payload, RecordOf, Promised, KeyFor, Did, Accounted,
        FollowsReply, Looked, Unserveable, Follows, Examine;
      ghost var start := backend.run;
      backend.Record(Begin(c, text, location));
      ghost var begun := backend.run;
      BeginDid(start, Begin(c, text, location));
      r, found := Serve(c, text, location, env);
      OutcomesKeepTheContract(backend.origin, backend.run, c);
      LookedSince(backend.origin, start, begun, backend.run, Begin(c, text, location), c,
                  KeyFor(backend.config, text, location), env, found);
      FollowsSince(start, begun, Begin(c, text, location), c, env, found, r);
      if r.Served? {
        Later(start, begun, Begin(c, text, location), c, env, r.outcome);
      }
    }

    lemma BeginDid(start: seq<Event>, e: Event)
      ensures Did(start, start + [e], e)
    {
      assert (start + [e])[|start|] == e;
    }

    /** The call has counted itself, once, as a hit or a miss, has kept a new answer, and has recorded what it
        served. */
    ghost predicate Accounted(before: seq<Event>, c: Cid, env: Environment, o: Outcome)
      reads backend
    {
      && Did(before, backend.run, Count(c, env.up(2)))
      && (!o.cached && !o.fallback ==> Did(before, backend.run, Keep(c, env.up(4))))
      && Did(before, backend.run, TriageSystem.Push(c, env.up(5), env.at))
    }

    lemma Later(start: seq<Event>, mid: seq<Event>, e: Event, c: Cid, env: Environment, o: Outcome)
      requires Did(start, mid, e) && Accounted(mid, c, env, o)
      ensures Accounted(start, c, env, o)
    {
      hide Did;
      Chain(start, mid, backend.run, e, Count(c, env.up(2)));
      if !o.cached && !o.fallback { Chain(start, mid, backend.run, e, Keep(c, env.up(4))); }
      Chain(start, mid, backend.run, e, TriageSystem.Push(c, env.up(5), env.at));
    }

    /** A usable entry is served as it was found; a poisoned one is dropped; and only a usable entry is served from
        the cache. */
    ghost predicate Follows(before: seq<Event>, c: Cid, env: Environment, found: Fetched<Json>, r: Served)
      reads backend
    {
      && (Usable(backend.config, found) ==> r == Served(CachedOutcome(backend.config, found, env.ms(0))))
      && (r.Served? && r.outcome.cached ==> Usable(backend.config, found))
      && (Poisoned(backend.config, found) ==> Did(before, backend.run, Discard(c, env.up(1))))
    }

    lemma FollowsSince(start: seq<Event>, mid: seq<Event>, e: Event, c: Cid, env: Environment, found: Fetched<Json>,
                       r: Served)
      requires Did(start, mid, e) && Follows(mid, c, env, found, r)
      ensures Follows(start, c, env, found, r)
    {
      hide Did, Usable, Poisoned;
      if Poisoned(backend.config, found) {
        Chain(start, mid, backend.run, e, Discard(c, env.up(1)));
      }
    }

    method Serve(c: Cid, text: string, location: string, env: Environment)
      returns (r: Served, ghost found: Fetched<Json>)
      requires backend.At(c, text, location, Looking)
      requires env.reply.Returns? ==> Promised(env.reply.result)
      modifies backend, backend.cache
      ensures backend.At(c, text, location, match r case Served(o) => Done(o) case Raised(e) => Threw(e))
      ensures Looked(
        backend.origin, old(backend.run), backend.run, c, KeyFor(backend.config, text, location), env, found)
      ensures r.Raised? <==> Unserveable(backend.config, text, location, found, env.reply)
      ensures Follows(old(backend.run), c, env, found, r)
      ensures r.Served? ==> Accounted(old(backend.run), c, env, r.outcome)
      ensures r.Served? && !r.outcome.cached ==> FollowsReply(backend.config, text, location, env, r.outcome)
      ensures r == Raised("ValidationError") ==> env.reply.Raises?
    {
      hide backend.At, KeyFor, Validate, Rules.Triage, Promised, Payload, Did, FollowsReply, Accounted, Looked;
      var f := backend.config;
      var key := KeyFor(f, text, location);
      ghost var start, get := backend.run, TriageSystem.Get(c, env.up(0), env.ms(0));
      var cached := backend.Get(c, text, location, key, env);
      found := cached;
      ghost var looked := backend.run;
      if cached.DecodeError? {
        return Raised("JSONDecodeError"), found;
      }
      if cached.Found? && cached.value != JNull {
        if !cached.value.JObject? {
          return Raised("TypeError"), found;
        }
        var fields := cached.value.fields;
        if "result" in fields {
          var result := Validate(fields["result"], f.float);
          if result.Some? && "triaged_by" in fields {
            var outcome := Outcome(result.value, fields["triaged_by"], env.ms(0), false, true, None);
            r := ServeCached(c, text, location, outcome, env);
            StillLooked(backend.origin, start, looked, backend.run, Count(c, env.up(2)), c, key, env, found);
            Later(start, looked, get, c, env, outcome);
            return;
          }
        }
        // a poisoned entry: drop it and triage again
        backend.Delete(c, text, location, key, env);
        Chain(start, looked, backend.run, get, Discard(c, env.up(1)));
        StillLooked(backend.origin, start, looked, backend.run, Discard(c, env.up(1)), c, key, env, found);
      }
      ghost var missed := backend.run;
      r := ServeFresh(c, text, location, key, env);
      StillLooked(backend.origin, start, missed, backend.run, Count(c, env.up(2)), c, key, env, found);
      if Poisoned(f, found) {
        Chain(start, missed, backend.run, Discard(c, env.up(1)), Count(c, env.up(2)));
      }
      if r.Served? {
        Later(start, missed, get, c, env, r.outcome);
      }
    }

    method ServeCached(c: Cid, text: string, location: string, outcome: Outcome, env: Environment) returns (r: Served)
      requires backend.At(c, text, location, CountingHit(outcome)) && outcome.cached
      modifies backend, backend.cache
      ensures backend.At(c, text, location, Done(outcome)) && r == Served(outcome)
      ensures Did(old(backend.run), backend.run, Count(c, env.up(2)))
      ensures Accounted(old(backend.run), c, env, outcome)
    {
      hide backend.At, Did;
      ghost var start := backend.run;
      backend.Incr(c, text, location, HITS_KEY, CountingHit(outcome), env);
      ghost var counted := backend.run;
      r := RecordOutcome(c, text, location, outcome, env);
      Chain(start, counted, backend.run, Count(c, env.up(2)), TriageSystem.Push(c, env.up(5), env.at));
    }

    method ServeFresh(c: Cid, text: string, location: string, key: string, env: Environment) returns (r: Served)
      requires backend.At(c, text, location, CountingMiss) && key == KeyFor(backend.config, text, location)
      requires env.reply.Returns? ==> Promised(env.reply.result)
      modifies backend, backend.cache
      ensures backend.At(c, text, location, match r case Served(o) => Done(o) case Raised(e) => Threw(e))
      ensures Did(old(backend.run), backend.run, Count(c, env.up(2)))
      ensures r.Raised? <==> env.reply.Raises? && Rules.Triage(backend.config.lower, text, location).None?
      ensures r.Raised? ==> r.error == "ValidationError"
      ensures r.Served? ==> (
        && !r.outcome.cached && Accounted(old(backend.run), c, env, r.outcome)
        && FollowsReply(backend.config, text, location, env, r.outcome))
    {
      hide backend.At, KeyFor, Rules.Triage, Promised, Payload, Did;
      var f := backend.config;
      ghost var start := backend.run;
      backend.Incr(c, text, location, MISSES_KEY, CountingMiss, env);
      ghost var counted := backend.run;
      var outcome;
      var reply := backend.AskProvider(c, text, location, env);
      Chain(start, counted, backend.run, Count(c, env.up(2)), Ask(c, reply, env.ms(3)));
      ghost var asked := backend.run;
      match reply {
        case Returns(result) =>
          outcome := Outcome(result, JString(f.name), env.ms(3), false, false, None);
          backend.Set(c, text, location, key, Payload(result, f.name), f.ttl, outcome, env);
          Chain(start, asked, backend.run, Count(c, env.up(2)), Keep(c, env.up(4)));
        case Raises(error) =>
          var result := Rules.Triage(f.lower, text, location);
          if result.None? {
            return Raised("ValidationError");
          }
          outcome := Outcome(result.value, JString(FALLBACK_NAME), env.ms(3), true, false, Some(error));
      }
      ghost var settled := backend.run;
      r := RecordOutcome(c, text, location, outcome, env);
      Chain(start, settled, backend.run, Count(c, env.up(2)), TriageSystem.Push(c, env.up(5), env.at));
      if reply.Returns? {
        Chain(start, settled, backend.run, Keep(c, env.up(4)), TriageSystem.Push(c, env.up(5), env.at));
      }
    }

    /** `_record`. */
    method RecordOutcome(c: Cid, text: string, location: string, outcome: Outcome, env: Environment)
      returns (r: Served)
      requires backend.At(c, text, location, Recording(outcome))
      modifies backend, backend.cache
      ensures backend.At(c, text, location, Done(outcome)) && r == Served(outcome)
      ensures Did(old(backend.run), backend.run, TriageSystem.Push(c, env.up(5), env.at))
    {
      backend.PushCapped(c, text, location, RecordOf(c, outcome, env.at), outcome, env);
      return Served(outcome);
    }

    /** With Redis up, the operators' list is the newest of everything pushed, newest first. */
    method Recent(up: bool) returns (items: seq<Json>)
      requires backend.Valid()
      ensures items == if up then Newest(Reversed(backend.sys.pushed), 20) else []
    {
      hide Legal, After, Initial, EntriesOk, CallsOk, CountsOk;
      RunKeepsInv(backend.origin, backend.run);
      items := backend.cache.ListRecent(RECENT_KEY, RECENT_CAP, up);
    }

    /** With Redis up and nothing lost, the counts are the numbers of calls counted as hits and misses. */
    method CacheCounts(upHits: bool, upMisses: bool) returns (hits: nat, misses: nat)
      requires backend.Valid()
      ensures hits == if upHits then |HitCalls(backend.sys)| - backend.sys.lostHits else 0
      ensures misses == if upMisses then |MissCalls(backend.sys)| - backend.sys.lostMisses else 0
    {
      RunKeepsInv(backend.origin, backend.run);
      hits := backend.cache.GetInt(HITS_KEY, upHits);
      misses := backend.cache.GetInt(MISSES_KEY, upMisses);
    }
  }
}
