/** What every run of the triage system keeps, and what that means for citizens and operators. */
module TriageTheorems {
  import opened Domain
  import opened Text
  import opened Contract
  import opened Cache
  import opened TriageSystem
  import CacheKey
  import Rules

  /** A call has an outcome from the moment it has an answer. */
  predicate HasOutcome(p: Phase) {
    p.CountingHit? || p.Keeping? || p.Recording? || p.Done?
  }

  /** The call has been counted as a cache hit. */
  predicate CountedHit(p: Phase) {
    (p.Recording? || p.Done?) && p.outcome.cached
  }

  /** The call has been counted as a cache miss. */
  predicate CountedMiss(p: Phase) {
    || p.Asking? || p.Keeping?
    || ((p.Recording? || p.Done?) && !p.outcome.cached)
    || p == Threw("ValidationError")
  }

  predicate IsDone(p: Phase) {
    p.Done?
  }

  function Those(calls: map<Cid, Call>, p: Phase -> bool): set<Cid> {
    set c | c in calls && p(calls[c].phase)
  }

  function HitCalls(s: Sys): set<Cid> {
    Those(s.calls, CountedHit)
  }

  function MissCalls(s: Sys): set<Cid> {
    Those(s.calls, CountedMiss)
  }

  function DoneCalls(s: Sys): set<Cid> {
    Those(s.calls, IsDone)
  }

  /** The entry under `key` is an answer of the provider to some input with that key, stored by this
      service and due to expire a time to live later. */
  predicate Genuine(s: Sys, key: string) {
    && key in s.redis.strings && key in s.kept && s.config.ttl > 0
    && var k := s.kept[key];
    && s.redis.strings[key] == Entry(Encoded(Payload(k.given.result, s.config.name)), k.at + 1000 * s.config.ttl)
    && key == KeyFor(s.config, k.given.text, k.given.location)
    && k.given in s.given && Promised(k.given.result) && k.at <= s.redis.now
  }

  ghost predicate EntriesOk(s: Sys) {
    && (forall key | key in s.redis.strings :: key in s.tampered || Genuine(s, key))
    && s.tampered <= s.touched
  }

  /** Where an outcome may come from. */
  ghost predicate Justified(s: Sys, call: Call)
    requires HasOutcome(call.phase)
  {
    var o := call.phase.outcome;
    && Promised(o.result)
    && (o.cached ==> (
          && !o.fallback && !call.phase.Keeping? && o.error.None?
          && (KeyFor(s.config, call.text, call.location) in s.touched || FromProvider(s, call, o))))
    && (!o.cached ==> !call.phase.CountingHit?)
    && (!o.cached && !o.fallback ==>
         Given(call.text, call.location, o.result) in s.given && o.triagedBy == JString(s.config.name))
    && (o.fallback ==> (
          && Rules.Triage(s.config.lower, call.text, call.location) == Some(o.result)
          && o.triagedBy == JString(FALLBACK_NAME) && o.error.Some? && !call.phase.Keeping?))
  }

  /** The provider gave this very result for an input with the same key. */
  ghost predicate FromProvider(s: Sys, call: Call, o: Outcome) {
    && o.triagedBy == JString(s.config.name)
    && exists g :: g in s.given && g.result == o.result
        && KeyFor(s.config, g.text, g.location) == KeyFor(s.config, call.text, call.location)
  }

  ghost predicate CallsOk(s: Sys) {
    forall c | c in s.calls :: CallOk(s, s.calls[c])
  }

  ghost predicate CallOk(s: Sys, call: Call) {
    && (HasOutcome(call.phase) ==> Justified(s, call))
    && (call.phase.Discarding? ==> KeyFor(s.config, call.text, call.location) in s.touched)
    && (call.phase.Threw? ==>
         if call.phase.error == "ValidationError" then Rules.Triage(s.config.lower, call.text, call.location).None?
         else KeyFor(s.config, call.text, call.location) in s.touched)
  }

  ghost predicate CountsOk(s: Sys) {
    && CountOf(s.redis, HITS_KEY) + s.lostHits == |HitCalls(s)|
    && CountOf(s.redis, MISSES_KEY) + s.lostMisses == |MissCalls(s)|
  }

  ghost predicate RecentOk(s: Sys) {
    && ListOf(s.redis, RECENT_KEY) == Newest(Reversed(s.pushed), RECENT_CAP)
    && |s.order| == |s.pushed| && |s.order| + s.lostPushes == |DoneCalls(s)|
    && (forall i, j | 0 <= i < j < |s.order| :: s.order[i] != s.order[j])
    && (forall i | 0 <= i < |s.order| :: RecordedAt(s, i))
  }

  ghost predicate RecordedAt(s: Sys, i: nat)
    requires i < |s.order| == |s.pushed|
  {
    && s.order[i] in s.calls && s.calls[s.order[i]].phase.Done?
    && exists at :: s.pushed[i] == RecordOf(s.order[i], s.calls[s.order[i]].phase.outcome, at)
  }

  ghost predicate Inv(s: Sys) {
    EntriesOk(s) && CallsOk(s) && CountsOk(s) && RecentOk(s)
  }

  lemma InitialInv(s: Sys)
    requires Initial(s)
    ensures Inv(s)
  {
    assert HitCalls(s) == {} && MissCalls(s) == {} && DoneCalls(s) == {};
    assert Reversed(s.pushed) == [];
  }

  /** The call an event belongs to. */
  function Actor(e: Event): Option<Cid> {
    match e
    case Tick(_) => None
    case Tamper(_, _, _) => None
    case Begin(c, _, _) => Some(c)
    case Get(c, _, _) => Some(c)
    case Discard(c, _) => Some(c)
    case Count(c, _) => Some(c)
    case Ask(c, _, _) => Some(c)
    case Keep(c, _) => Some(c)
    case Push(c, _, _) => Some(c)
  }

  /** An event moves only the call it belongs to; histories only grow. */
  lemma Frame(s: Sys, e: Event)
    requires Enabled(s, e)
    ensures var s' := Apply(s, e);
      && s'.config == s.config && s.given <= s'.given && s.touched <= s'.touched && s.redis.now <= s'.redis.now
      && (forall c | c in s'.calls && Actor(e) != Some(c) :: c in s.calls && s'.calls[c] == s.calls[c])
      && (forall c | c in s.calls :: c in s'.calls)
      && (Actor(e).Some? ==> Actor(e).value in s'.calls)
      && (Actor(e).Some? && !e.Begin? ==>
            s'.calls[Actor(e).value] == s.calls[Actor(e).value].(phase := s'.calls[Actor(e).value].phase))
  {
    hide Apply, Enabled;
    FrameOfHistories(s, e);
    FrameOfCalls(s, e);
  }

  lemma FrameOfHistories(s: Sys, e: Event)
    requires Enabled(s, e)
    ensures var s' := Apply(s, e);
      s'.config == s.config && s.given <= s'.given && s.touched <= s'.touched && s.redis.now <= s'.redis.now
  {
    hide KeyFor, Examine, Settle, RecordOf, Payload, Lookup, Newest, ListOf, CountOf;
  }

  lemma FrameOfCalls(s: Sys, e: Event)
    requires Enabled(s, e)
    ensures var s' := Apply(s, e);
      && (forall c | c in s'.calls && Actor(e) != Some(c) :: c in s.calls && s'.calls[c] == s.calls[c])
      && (forall c | c in s.calls :: c in s'.calls)
      && (Actor(e).Some? ==> Actor(e).value in s'.calls)
      && (Actor(e).Some? && !e.Begin? ==>
            s'.calls[Actor(e).value] == s.calls[Actor(e).value].(phase := s'.calls[Actor(e).value].phase))
  {
    hide KeyFor, Examine, Settle, RecordOf, Payload, Lookup, Put, Drop, Bump, Cache.Push;
  }

  lemma EntriesKept(s: Sys, e: Event)
    requires Inv(s) && Enabled(s, e)
    ensures EntriesOk(Apply(s, e))
  {
    hide CountsOk, RecentOk, KeyFor, Justified, Payload;
    if e.Keep? {
      assert CallOk(s, s.calls[e.c]);
      KeepIsGenuine(s, e);
    } else {
      EntriesUntouched(s, e);
    }
  }

  lemma KeepIsGenuine(s: Sys, e: Event)
    requires EntriesOk(s) && Enabled(s, e) && e.Keep? && Justified(s, s.calls[e.c])
    ensures EntriesOk(Apply(s, e))
  {
    hide KeyFor, Payload, Rules.Triage, Promised, FromProvider, Settle, Examine, RecordOf, Apply;
    var s' := Apply(s, e);
    KeptStored(s, e);
    forall key | key in s'.redis.strings && key !in s'.tampered ensures Genuine(s', key) {
      if key != Key(s, e.c) {
        assert key in s.redis.strings && key !in s.tampered && Genuine(s, key);
      }
    }
  }

  lemma KeptStored(s: Sys, e: Event)
    requires Enabled(s, e) && e.Keep?
    ensures Apply(s, e) == KeptState(s, e)
  {
    hide KeyFor, Payload, Settle, Examine, RecordOf, Rules.Triage;
  }

  function KeptState(s: Sys, e: Event): Sys
    requires Enabled(s, e) && e.Keep?
  {
    var key, o, call := Key(s, e.c), PhaseOf(s, e.c).outcome, s.calls[e.c];
    var t := To(s, e.c, Recording(o));
    if !e.up || s.config.ttl <= 0 then t
    else
      t.(redis := s.redis.(strings := s.redis.strings[key :=
           Entry(Encoded(Payload(o.result, s.config.name)), s.redis.now + 1000 * s.config.ttl)]),
         kept := s.kept[key := Kept(Given(call.text, call.location, o.result), s.redis.now)],
         tampered := s.tampered - {key})
  }

  lemma EntriesUntouched(s: Sys, e: Event)
    requires EntriesOk(s) && Enabled(s, e) && !e.Keep?
    ensures EntriesOk(Apply(s, e))
  {
    hide KeyFor, Payload, Examine, Settle, RecordOf, Newest, ListOf, CountOf;
    var s' := Apply(s, e);
    forall key | key in s'.redis.strings && key !in s'.tampered ensures Genuine(s', key) {
      assert Genuine(s, key);
    }
  }

  lemma CallsKept(s: Sys, e: Event)
    requires Inv(s) && Enabled(s, e)
    ensures CallsOk(Apply(s, e))
  {
    var s' := Apply(s, e);
    Frame(s, e);
    if Actor(e).Some? && !e.Begin? {
      assert CallOk(s, s.calls[Actor(e).value]);
      if e.Get? {
        GetOk(s, e);
      } else if e.Ask? {
        AskOk(s, e);
      } else {
        MovedOn(s, s', e);
      }
    }
    hide CallOk, EntriesOk, CountsOk, RecentOk;
    forall c | c in s'.calls ensures CallOk(s', s'.calls[c]) {
      if Actor(e) != Some(c) {
        StillOk(s, s', s.calls[c]);
      } else if e.Begin? {
        JustBegun(s, e);
      }
    }
  }

  lemma JustBegun(s: Sys, e: Event)
    requires Enabled(s, e) && e.Begin?
    ensures var s' := Apply(s, e); e.c in s'.calls ==> CallOk(s', s'.calls[e.c])
  {
  }

  lemma StillOk(s: Sys, s': Sys, call: Call)
    requires CallOk(s, call) && s.config == s'.config && s.given <= s'.given && s.touched <= s'.touched
    ensures CallOk(s', call)
  {
    hide Rules.Triage, KeyFor, Promised;
  }

  /** What is found under an untouched key is the provider's own answer, and validating its dump gives
      back exactly the result that was stored. */
  lemma GetOk(s: Sys, e: Event)
    requires Inv(s) && Enabled(s, e) && e.Get?
    ensures var s' := Apply(s, e); e.c in s'.calls ==> CallOk(s', s'.calls[e.c])
  {
    hide KeyFor, Validate, Dump, Rules.Triage, CountsOk, RecentOk, Promised, Settle, RecordOf;
    var call, key := s.calls[e.c], Key(s, e.c);
    var found := if e.up then Lookup(s.redis, key) else Missing;
    if found.Found? && found.value.JObject? && "result" in found.value.fields {
      ValidateKeepsPromise(found.value.fields["result"], s.config.float);
    }
    if key !in s.touched && found != Missing {
      assert Genuine(s, key);
      DumpThenValidate(s.kept[key].given.result, s.config.float);
    }
  }

  lemma AskOk(s: Sys, e: Event)
    requires Inv(s) && Enabled(s, e) && e.Ask?
    ensures var s' := Apply(s, e); e.c in s'.calls ==> CallOk(s', s'.calls[e.c])
  {
    hide KeyFor, EntriesOk, CallsOk, CountsOk, RecentOk, Rules.Triage, Promised;
    var call := s.calls[e.c];
    Rules.TriageKeepsPromise(s.config.lower, call.text, call.location);
  }

  lemma MovedOn(s: Sys, s': Sys, e: Event)
    requires Inv(s) && Enabled(s, e) && s' == Apply(s, e)
    requires e.Discard? || e.Count? || e.Keep? || e.Push?
    ensures CallOk(s', s'.calls[e.c])
  {
    hide KeyFor, RecordOf, Payload, Put, Bump, Drop, Cache.Push, Rules.Triage, EntriesOk, CountsOk, RecentOk;
    assert CallOk(s, s.calls[e.c]);
  }

  /** Moving one call changes the number of calls that satisfy `p` only on that call's account. */
  lemma OneMoved(calls: map<Cid, Call>, calls': map<Cid, Call>, c: Cid, p: Phase -> bool)
    requires c in calls' && calls' == calls[c := calls'[c]]
    ensures |Those(calls', p)| == |Those(calls, p)| + Delta(c in calls && p(calls[c].phase), p(calls'[c].phase))
  {
    var now, was := Those(calls', p), Those(calls, p);
    forall other | other != c ensures other in now <==> other in was {
      assert other in calls' <==> other in calls;
    }
    SetMoved(was, now, c);
  }

  lemma SetMoved<T>(was: set<T>, now: set<T>, c: T)
    requires forall other | other != c :: other in now <==> other in was
    ensures |now| == |was| + Delta(c in was, c in now)
  {
    assert now - {c} == was - {c};
    assert c !in was ==> was - {c} == was;
    assert c !in now ==> now - {c} == now;
  }

  lemma CallSetsMoved(s: Sys, s': Sys, c: Cid)
    requires c in s'.calls && s'.calls == s.calls[c := s'.calls[c]]
    ensures var call := s'.calls[c];
      && |HitCalls(s')| == |HitCalls(s)| + Delta(c in s.calls && CountedHit(s.calls[c].phase), CountedHit(call.phase))
      && |MissCalls(s')|
         == |MissCalls(s)| + Delta(c in s.calls && CountedMiss(s.calls[c].phase), CountedMiss(call.phase))
      && |DoneCalls(s')| == |DoneCalls(s)| + Delta(c in s.calls && IsDone(s.calls[c].phase), IsDone(call.phase))
  {
    OneMoved(s.calls, s'.calls, c, CountedHit);
    OneMoved(s.calls, s'.calls, c, CountedMiss);
    OneMoved(s.calls, s'.calls, c, IsDone);
  }

  function Delta(was: bool, now: bool): int {
    if now && !was then 1 else if was && !now then -1 else 0
  }

  /** Every operation that moves a call on its way changes the counters exactly when it changes what the
      call counts as. */
  lemma CountsKept(s: Sys, e: Event)
    requires Inv(s) && Enabled(s, e)
    ensures CountsOk(Apply(s, e))
  {
    var s' := Apply(s, e);
    if Actor(e).Some? {
      var c := Actor(e).value;
      ActorMoves(s, e, c);
      if !e.Begin? { assert CallOk(s, s.calls[c]); }
      Tally(s, e);
    } else {
      assert s'.calls == s.calls && s'.redis.counters == s.redis.counters;
    }
  }

  lemma ActorMoves(s: Sys, e: Event, c: Cid)
    requires Enabled(s, e) && Actor(e) == Some(c)
    ensures var s' := Apply(s, e); c in s'.calls && s'.calls == s.calls[c := s'.calls[c]]
    ensures var s' := Apply(s, e);
      && |HitCalls(s')| == |HitCalls(s)|
           + Delta(c in s.calls && CountedHit(s.calls[c].phase), CountedHit(s'.calls[c].phase))
      && |MissCalls(s')| == |MissCalls(s)|
           + Delta(c in s.calls && CountedMiss(s.calls[c].phase), CountedMiss(s'.calls[c].phase))
      && |DoneCalls(s')| == |DoneCalls(s)|
           + Delta(c in s.calls && IsDone(s.calls[c].phase), IsDone(s'.calls[c].phase))
  {
    hide HitCalls, MissCalls, DoneCalls, CountedHit, CountedMiss, Apply, Enabled;
    var s' := Apply(s, e);
    Frame(s, e);
    CallSetsMoved(s, s', c);
  }

  lemma Tally(s: Sys, e: Event)
    requires Enabled(s, e) && Actor(e).Some?
    requires e.Begin? || CallOk(s, s.calls[Actor(e).value])
    ensures var s', c := Apply(s, e), Actor(e).value;
      var was := c in s.calls;
      && CountOf(s'.redis, HITS_KEY) + s'.lostHits == CountOf(s.redis, HITS_KEY) + s.lostHits
           + Delta(was && CountedHit(s.calls[c].phase), CountedHit(s'.calls[c].phase))
      && CountOf(s'.redis, MISSES_KEY) + s'.lostMisses == CountOf(s.redis, MISSES_KEY) + s.lostMisses
           + Delta(was && CountedMiss(s.calls[c].phase), CountedMiss(s'.calls[c].phase))
  {
    hide KeyFor, RecordOf, Payload, Validate, Newest, ListOf, Rules.Triage, FromProvider, Promised, Settle, Examine,
      Lookup;
    if e.Get? {
      TallyGet(s, e);
    } else if e.Ask? {
      TallyAsk(s, e);
    }
  }

  lemma TallyGet(s: Sys, e: Event)
    requires Enabled(s, e) && e.Get?
    ensures var s' := Apply(s, e);
      && s'.redis == s.redis && s'.lostHits == s.lostHits && s'.lostMisses == s.lostMisses
      && !CountedHit(s'.calls[e.c].phase) && !CountedMiss(s'.calls[e.c].phase)
  {
    hide KeyFor, Validate, Lookup, Rules.Triage;
  }

  lemma TallyAsk(s: Sys, e: Event)
    requires Enabled(s, e) && e.Ask?
    ensures var s' := Apply(s, e);
      && s'.redis == s.redis && s'.lostHits == s.lostHits && s'.lostMisses == s.lostMisses
      && !CountedHit(s'.calls[e.c].phase) && CountedMiss(s'.calls[e.c].phase)
  {
    hide KeyFor, Rules.Triage;
  }

  lemma RecentKept(s: Sys, e: Event)
    requires Inv(s) && Enabled(s, e)
    ensures RecentOk(Apply(s, e))
  {
    hide EntriesOk, CallsOk, CountsOk, RecentOk;
    if Actor(e).Some? {
      ActorMoves(s, e, Actor(e).value);
      DoneOnlyByPush(s, e);
    } else {
      assert Apply(s, e).calls == s.calls;
    }
    if e.Push? && e.up {
      PushRecorded(s, e);
    } else {
      NothingPushed(s, e);
    }
  }

  lemma DoneOnlyByPush(s: Sys, e: Event)
    requires Enabled(s, e) && Actor(e).Some?
    ensures var s', c := Apply(s, e), Actor(e).value;
      Delta(c in s.calls && IsDone(s.calls[c].phase), IsDone(s'.calls[c].phase)) == if e.Push? then 1 else 0
  {
    hide Rules.Triage, Validate, Payload, RecordOf, KeyFor, Lookup, Put, Drop, Bump, Cache.Push;
  }

  lemma PushRecorded(s: Sys, e: Event)
    requires RecentOk(s) && Enabled(s, e) && e.Push? && e.up
    requires |DoneCalls(Apply(s, e))| == |DoneCalls(s)| + 1
    ensures RecentOk(Apply(s, e))
  {
    hide RecordOf, KeyFor, Newest, Reversed, DoneCalls;
    var s' := Apply(s, e);
    var record := RecordOf(e.c, PhaseOf(s, e.c).outcome, e.at);
    PushKeepsNewest(s.redis, RECENT_KEY, s.pushed, record, RECENT_CAP);
    forall i | 0 <= i < |s'.order| ensures RecordedAt(s', i) {
      if i < |s.order| { assert RecordedAt(s, i); }
    }
    forall i | 0 <= i < |s.order| ensures s.order[i] != e.c {
      assert RecordedAt(s, i);
    }
  }

  lemma NothingPushed(s: Sys, e: Event)
    requires RecentOk(s) && Enabled(s, e) && !(e.Push? && e.up)
    requires |DoneCalls(Apply(s, e))| == |DoneCalls(s)| + (if e.Push? then 1 else 0)
    ensures RecentOk(Apply(s, e))
  {
    hide RecordOf, KeyFor, Newest, Reversed, DoneCalls, Examine, Settle, Payload, Cache.Push;
    var s' := Apply(s, e);
    forall i | 0 <= i < |s'.order| ensures RecordedAt(s', i) {
      assert RecordedAt(s, i);
    }
  }

  lemma StepKeepsInv(s: Sys, e: Event)
    requires Inv(s) && Enabled(s, e)
    ensures Inv(Apply(s, e))
  {
    EntriesKept(s, e);
    CallsKept(s, e);
    CountsKept(s, e);
    RecentKept(s, e);
  }

  /** The invariant holds throughout every run. */
  lemma {:induction false} RunKeepsInv(origin: Sys, run: seq<Event>)
    requires Initial(origin)
    ensures Inv(After(origin, run))
    decreases |run|
  {
    if run != [] {
      var before, e := run[..|run| - 1], run[|run| - 1];
      RunKeepsInv(origin, before);
      if Enabled(After(origin, before), e) {
        StepKeepsInv(After(origin, before), e);
      }
    } else {
      InitialInv(origin);
    }
  }

  /** The digest keeps distinct normal forms apart. */
  lemma SameKeySameForm(f: Config, text: string, location: string, text': string, location': string)
    requires KeyFor(f, text, location) == KeyFor(f, text', location')
    ensures CacheKey.KeyText(f.lower, text, location) == CacheKey.KeyText(f.lower, text', location')
  {
    var a, b := KeyFor(f, text, location), KeyFor(f, text', location');
    assert a[|CACHE_PREFIX|..] == b[|CACHE_PREFIX|..];
  }

  /** Through every run: a live entry that no other client wrote is an answer the provider itself gave,
      never the rules', to an input with the same normal form, stored less than the time to live ago. */
  lemma LiveEntriesAreAnswers(origin: Sys, run: seq<Event>, text: string, location: string) returns (g: Given)
    requires Initial(origin)
    requires var s := After(origin, run);
      Live(s.redis, KeyFor(s.config, text, location)) && KeyFor(s.config, text, location) !in s.tampered
    ensures var s := After(origin, run);
      var key := KeyFor(s.config, text, location);
      && g in s.given && Promised(g.result)
      && CacheKey.KeyText(s.config.lower, g.text, g.location) == CacheKey.KeyText(s.config.lower, text, location)
      && Lookup(s.redis, key) == Found(Payload(g.result, s.config.name))
      && key in s.kept && s.kept[key].at <= s.redis.now < s.kept[key].at + 1000 * s.config.ttl
  {
    hide CacheKey.KeyText;
    RunKeepsInv(origin, run);
    var s := After(origin, run);
    var key := KeyFor(s.config, text, location);
    assert Genuine(s, key);
    g := s.kept[key].given;
    SameKeySameForm(s.config, g.text, g.location, text, location);
  }

  /** A hit serves exactly what the provider answered to an input with the same normal form. */
  lemma HitsServeAnswers(origin: Sys, run: seq<Event>, c: Cid) returns (g: Given)
    requires Initial(origin)
    requires var s := After(origin, run);
      c in s.calls && s.calls[c].phase.Done? && s.calls[c].phase.outcome.cached && Key(s, c) !in s.touched
    ensures var s := After(origin, run);
      var call, o := s.calls[c], s.calls[c].phase.outcome;
      && g in s.given && g.result == o.result && o.triagedBy == JString(s.config.name)
      && CacheKey.KeyText(s.config.lower, g.text, g.location)
         == CacheKey.KeyText(s.config.lower, call.text, call.location)
  {
    hide CacheKey.KeyText;
    RunKeepsInv(origin, run);
    var s := After(origin, run);
    var call := s.calls[c];
    assert CallOk(s, call) && FromProvider(s, call, call.phase.outcome);
    g :| g in s.given && g.result == call.phase.outcome.result
      && KeyFor(s.config, g.text, g.location) == KeyFor(s.config, call.text, call.location);
    SameKeySameForm(s.config, g.text, g.location, call.text, call.location);
  }

  /** Whatever the provider raises, whatever Redis loses and whatever others write: a call that ends with
      an outcome has one that keeps the contract. A call can end without one only if others wrote under
      its key or the rules cannot summarise its location on one line. */
  lemma OutcomesKeepTheContract(origin: Sys, run: seq<Event>, c: Cid)
    requires Initial(origin) && c in After(origin, run).calls
    ensures var s := After(origin, run);
      var call := s.calls[c];
      && (call.phase.Done? ==> Promised(call.phase.outcome.result))
      && (call.phase.Done? && call.phase.outcome.fallback ==>
            call.phase.outcome.triagedBy == JString(FALLBACK_NAME) && !call.phase.outcome.cached)
      && (call.phase.Done? ==>
            Key(s, c) in s.touched || call.phase.outcome.triagedBy in {JString(s.config.name), JString(FALLBACK_NAME)})
      && (call.phase.Threw? ==>
            || Key(s, c) in s.touched
            || (call.phase.error == "ValidationError" && Rules.Triage(s.config.lower, call.text, call.location).None?))
  {
    hide Promised, Rules.Triage;
    RunKeepsInv(origin, run);
    assert CallOk(After(origin, run), After(origin, run).calls[c]);
  }

  /** The calls that missed the cache and failed with the rules. */
  predicate FailedLast(p: Phase) {
    p == Threw("ValidationError")
  }

  function FailedCalls(s: Sys): set<Cid> {
    Those(s.calls, FailedLast)
  }

  /** Once every call has come to an end, served or not, the counters and the operators' list account for all of
      them, up to exactly the operations Redis lost: each call that was served is one hit or one miss, and each that
      failed with the rules a miss; the hits are the outcomes marked cached; and the list is the newest of the
      records pushed, one for each call served. */
  lemma AccountsBalance(origin: Sys, run: seq<Event>)
    requires Initial(origin)
    requires forall c | c in After(origin, run).calls ::
      After(origin, run).calls[c].phase.Done? || After(origin, run).calls[c].phase.Threw?
    ensures var s := After(origin, run);
      var hits, misses := CountOf(s.redis, HITS_KEY), CountOf(s.redis, MISSES_KEY);
      && hits + misses + s.lostHits + s.lostMisses == |DoneCalls(s)| + |FailedCalls(s)|
      && hits + s.lostHits == |set c | c in DoneCalls(s) && s.calls[c].phase.outcome.cached|
      && ((forall c | c in s.calls :: s.calls[c].phase.Done?) ==> |DoneCalls(s)| == |s.calls| && FailedCalls(s) == {})
      && ListOf(s.redis, RECENT_KEY) == Newest(Reversed(s.pushed), RECENT_CAP)
      && |s.pushed| + s.lostPushes == |DoneCalls(s)| && |s.order| == |s.pushed|
      && (forall i, j | 0 <= i < j < |s.order| :: s.order[i] != s.order[j])
      && (forall i | 0 <= i < |s.order| :: RecordedAt(s, i))
  {
    RunKeepsInv(origin, run);
    hide After, RecordedAt, Newest, Reversed, EntriesOk, CallsOk;
    Balance(After(origin, run));
  }

  lemma Balance(s: Sys)
    requires CountsOk(s) && RecentOk(s)
    requires forall c | c in s.calls :: s.calls[c].phase.Done? || s.calls[c].phase.Threw?
    ensures CountOf(s.redis, HITS_KEY) + CountOf(s.redis, MISSES_KEY) + s.lostHits + s.lostMisses
      == |DoneCalls(s)| + |FailedCalls(s)|
    ensures CountOf(s.redis, HITS_KEY) + s.lostHits == |set c | c in DoneCalls(s) && s.calls[c].phase.outcome.cached|
    ensures |s.pushed| + s.lostPushes == |DoneCalls(s)|
    ensures (forall c | c in s.calls :: s.calls[c].phase.Done?) ==> |DoneCalls(s)| == |s.calls| && FailedCalls(s) == {}
  {
    hide RecordedAt, Newest, Reversed, CountOf, ListOf, HitCalls, MissCalls, DoneCalls, FailedCalls;
    CallsParted(s);
    PartedSets(HitCalls(s), MissCalls(s), DoneCalls(s), FailedCalls(s));
  }

  lemma CallsParted(s: Sys)
    requires forall c | c in s.calls :: s.calls[c].phase.Done? || s.calls[c].phase.Threw?
    ensures forall c | c in DoneCalls(s) :: c in s.calls && s.calls[c].phase.Done?
    ensures var hits, misses, done, failed := HitCalls(s), MissCalls(s), DoneCalls(s), FailedCalls(s);
      && hits <= done && done !! failed && misses == (done - hits) + failed
      && hits == (set c | c in done && s.calls[c].phase.outcome.cached)
      && ((forall c | c in s.calls :: s.calls[c].phase.Done?) ==> |done| == |s.calls| && failed == {})
  {
    CountedCalls(s);
    hide HitCalls, MissCalls, DoneCalls, FailedCalls;
    MissesParted(s);
    if forall c | c in s.calls :: s.calls[c].phase.Done? {
      AllDone(s);
    }
  }

  lemma MissesParted(s: Sys)
    requires forall c | c in s.calls :: s.calls[c].phase.Done? || s.calls[c].phase.Threw?
    ensures MissCalls(s) == (DoneCalls(s) - HitCalls(s)) + FailedCalls(s)
  {
    CountedCalls(s);
    hide HitCalls, MissCalls, DoneCalls, FailedCalls;
    forall c ensures c in MissCalls(s) <==> (c in DoneCalls(s) && c !in HitCalls(s)) || c in FailedCalls(s) {
      if c in s.calls {
        if s.calls[c].phase.Done? {
          assert CountedMiss(s.calls[c].phase) <==> !CountedHit(s.calls[c].phase);
        } else {
          assert CountedMiss(s.calls[c].phase) <==> FailedLast(s.calls[c].phase);
        }
      }
    }
  }

  lemma AllDone(s: Sys)
    requires forall c | c in s.calls :: s.calls[c].phase.Done?
    ensures |DoneCalls(s)| == |s.calls| && FailedCalls(s) == {}
  {
    CountedCalls(s);
    hide DoneCalls, FailedCalls;
    assert DoneCalls(s) == s.calls.Keys && |s.calls.Keys| == |s.calls|;
  }

  lemma PartedSets<T>(hits: set<T>, misses: set<T>, done: set<T>, failed: set<T>)
    requires hits <= done && done !! failed && misses == (done - hits) + failed
    ensures |hits| + |misses| == |done| + |failed|
  {
    assert |misses| == |done - hits| + |failed|;
    assert |done - hits| == |done| - |hits|;
  }

  lemma CountedCalls(s: Sys)
    ensures forall c :: c in HitCalls(s) <==> c in s.calls && CountedHit(s.calls[c].phase)
    ensures forall c :: c in MissCalls(s) <==> c in s.calls && CountedMiss(s.calls[c].phase)
    ensures forall c :: c in DoneCalls(s) <==> c in s.calls && s.calls[c].phase.Done?
    ensures forall c :: c in FailedCalls(s) <==> c in s.calls && FailedLast(s.calls[c].phase)
  {
  }

  // ---------------------------------------------------------------- where a citizen sees an error

  lemma Extend(s: Sys, run: seq<Event>, e: Event)
    requires Legal(s, run) && Enabled(After(s, run), e)
    ensures Legal(s, run + [e]) && After(s, run + [e]) == Apply(After(s, run), e)
  {
    assert (run + [e])[..|run + [e]| - 1] == run;
  }

  /** Whatever another client has left under the complaint's key that does not decode, or decodes to something
      that is neither null nor an object: the call raises. */
  lemma UnreadablePayloadRaises(origin: Sys, c: Cid, text: string, location: string, raw: Raw<Json>)
    returns (run: seq<Event>)
    requires Initial(origin) && (raw.Encoded? ==> raw.value != JNull && !raw.value.JObject?)
    ensures Legal(origin, run) && c in After(origin, run).calls
    ensures After(origin, run).calls[c] ==
      Call(text, location, Threw(if raw.Garbage? then "JSONDecodeError" else "TypeError"))
  {
    var tamper := Tamper(KeyFor(origin.config, text, location), raw, origin.redis.now + 1);
    var begin, get := Begin(c, text, location), Get(c, true, 0);
    assert Legal(origin, []) && After(origin, []) == origin;
    hide Legal, After, Apply, Enabled, Rules.Triage, Initial, KeyFor;
    TamperedSteps(origin, c, text, location, raw);
    Extend(origin, [], tamper);
    Extend(origin, [] + [tamper], begin);
    Extend(origin, [] + [tamper] + [begin], get);
    run := [] + [tamper] + [begin] + [get];
  }

  lemma TamperedSteps(s: Sys, c: Cid, text: string, location: string, raw: Raw<Json>)
    requires Initial(s) && (raw.Encoded? ==> raw.value != JNull && !raw.value.JObject?)
    ensures var tamper := Tamper(KeyFor(s.config, text, location), raw, s.redis.now + 1);
      && Enabled(s, tamper)
      && var s1 := Apply(s, tamper);
      && Enabled(s1, Begin(c, text, location))
      && var s2 := Apply(s1, Begin(c, text, location));
      && Enabled(s2, Get(c, true, 0))
      && Apply(s2, Get(c, true, 0)).calls
         == map[c := Call(text, location, Threw(if raw.Garbage? then "JSONDecodeError" else "TypeError"))]
  {
    hide KeyFor, Rules.Triage, Payload, RecordOf, Validate, Settle;
  }

  /** Whenever the rules fail on a complaint, a provider that raises is all it takes. */
  lemma FailingFallbackRaises(origin: Sys, c: Cid, text: string, location: string, error: ErrorName)
    returns (run: seq<Event>)
    requires Initial(origin) && Rules.Triage(origin.config.lower, text, location).None?
    ensures Legal(origin, run) && c in After(origin, run).calls && After(origin, run).touched == {}
    ensures After(origin, run).calls[c] == Call(text, location, Threw("ValidationError"))
  {
    assert Legal(origin, []) && After(origin, []) == origin;
    hide Legal, After, Apply, Enabled, Rules.Triage, Initial;
    var begin, get, count, ask := Begin(c, text, location), Get(c, true, 0), Count(c, true), Ask(c, Raises(error), 0);
    UncachedSteps(origin, c, text, location);
    Extend(origin, [], begin);
    Extend(origin, [] + [begin], get);
    run := [] + [begin] + [get];
    AskingSteps(After(origin, run), c, text, location, error);
    Extend(origin, run, count);
    Extend(origin, run + [count], ask);
    run := run + [count] + [ask];
  }

  lemma UncachedSteps(s: Sys, c: Cid, text: string, location: string)
    requires Initial(s)
    ensures Enabled(s, Begin(c, text, location))
    ensures var s1 := Apply(s, Begin(c, text, location));
      && Enabled(s1, Get(c, true, 0))
      && var s2 := Apply(s1, Get(c, true, 0));
      s2.config == s.config && s2.touched == {} && s2.calls == map[c := Call(text, location, CountingMiss)]
  {
    hide KeyFor, Rules.Triage, Payload, RecordOf, Validate, Settle;
  }

  lemma AskingSteps(s: Sys, c: Cid, text: string, location: string, error: ErrorName)
    requires s.touched == {} && s.calls == map[c := Call(text, location, CountingMiss)]
    requires Rules.Triage(s.config.lower, text, location).None?
    ensures Enabled(s, Count(c, true))
    ensures var s1 := Apply(s, Count(c, true));
      && Enabled(s1, Ask(c, Raises(error), 0))
      && var s2 := Apply(s1, Ask(c, Raises(error), 0));
      s2.touched == {} && s2.calls == map[c := Call(text, location, Threw("ValidationError"))]
  {
    hide KeyFor, Rules.Triage, Payload, RecordOf, Validate;
  }

  /** For instance any complaint about a place written on two lines. */
  lemma TwoLineLocationRaises(origin: Sys, c: Cid, text: string, error: ErrorName) returns (run: seq<Event>)
    requires Initial(origin)
    ensures Legal(origin, run) && c in After(origin, run).calls && After(origin, run).touched == {}
    ensures After(origin, run).calls[c].phase == Threw("ValidationError")
  {
    hide Legal, After, Rules.Triage;
    Rules.LineBreakExample(origin.config.lower, text);
    run := FailingFallbackRaises(origin, c, text, "G-11\nStreet 12", error);
  }

  // ---------------------------------------------------------------- what calls do for one another

  /** An answer serves every later call with the same normal form until its lifetime is over: for any two such
      calls, any provider answer and any shorter wait, a run in which the second is a hit. */
  lemma AnswersAreReused(origin: Sys, c: Cid, d: Cid, text: string, location: string, text': string,
                         location': string, result: TriageResult, wait: nat)
    returns (run: seq<Event>)
    requires Initial(origin) && c != d && Promised(result) && wait < 1000 * origin.config.ttl
    requires CacheKey.KeyText(origin.config.lower, text, location)
      == CacheKey.KeyText(origin.config.lower, text', location')
    ensures Legal(origin, run)
    ensures var calls := After(origin, run).calls;
      && c in calls && d in calls
      && calls[c] == Call(text, location, Done(Outcome(result, JString(origin.config.name), 0, false, false, None)))
      && calls[d] == Call(text', location', Done(Outcome(result, JString(origin.config.name), 0, false, true, None)))
  {
    hide Legal, After, Initial, Promised, CacheKey.KeyText, Stores, KeyFor;
    run := MissedRun(origin, c, text, location);
    run := AnsweredRun(origin, run, c, text, location, result);
    SameFormSameStore(After(origin, run), text, location, text', location', result,
                      After(origin, run).redis.now + 1000 * origin.config.ttl);
    run := HitRun(origin, run, d, text', location', result, wait);
  }

  lemma SameFormSameStore(s: Sys, text: string, location: string, text': string, location': string,
                          result: TriageResult, expires: nat)
    requires CacheKey.KeyText(s.config.lower, text, location) == CacheKey.KeyText(s.config.lower, text', location')
    requires Stores(s, text, location, result, expires)
    ensures Stores(s, text', location', result, expires)
  {
    hide CacheKey.KeyText, Payload;
  }

  lemma MissedRun(origin: Sys, c: Cid, text: string, location: string) returns (run: seq<Event>)
    requires Initial(origin)
    ensures Legal(origin, run)
    ensures var s := After(origin, run);
      s.config == origin.config && s.calls == map[c := Call(text, location, CountingMiss)]
  {
    assert Legal(origin, []) && After(origin, []) == origin;
    hide Legal, After, Apply, Enabled, Initial;
    UncachedSteps(origin, c, text, location);
    Extend(origin, [], Begin(c, text, location));
    Extend(origin, [] + [Begin(c, text, location)], Get(c, true, 0));
    run := [] + [Begin(c, text, location)] + [Get(c, true, 0)];
  }

  /** A call that has missed the cache and gets an answer stores it. */
  lemma AnsweredRun(origin: Sys, run: seq<Event>, c: Cid, text: string, location: string, result: TriageResult)
    returns (run': seq<Event>)
    requires Legal(origin, run) && Promised(result) && After(origin, run).config.ttl > 0
    requires c in After(origin, run).calls && After(origin, run).calls[c] == Call(text, location, CountingMiss)
    ensures Legal(origin, run')
    ensures var s, s' := After(origin, run), After(origin, run');
      && s'.config == s.config && s'.redis.now == s.redis.now && s'.touched == s.touched
      && s'.calls == s.calls[c :=
           Call(text, location, Done(Outcome(result, JString(s.config.name), 0, false, false, None)))]
      && Stores(s', text, location, result, s.redis.now + 1000 * s.config.ttl)
  {
    hide Legal, After, Apply, Enabled, Promised;
    var s := After(origin, run);
    AskedSteps(s, c, text, location, result);
    Extend(origin, run, Count(c, true));
    run' := run + [Count(c, true)];
    Extend(origin, run', Ask(c, Returns(result), 0));
    run' := run' + [Ask(c, Returns(result), 0)];
    KeptSteps(After(origin, run'), c, text, location, result);
    Extend(origin, run', Keep(c, true));
    run' := run' + [Keep(c, true)];
    Extend(origin, run', Push(c, true, ""));
    run' := run' + [Push(c, true, "")];
  }

  /** Under the key of this complaint stands this answer, to expire at this time. */
  predicate Stores(s: Sys, text: string, location: string, result: TriageResult, expires: nat) {
    var key := KeyFor(s.config, text, location);
    key in s.redis.strings && s.redis.strings[key] == Entry(Encoded(Payload(result, s.config.name)), expires)
  }

  lemma AskedSteps(s: Sys, c: Cid, text: string, location: string, result: TriageResult)
    requires c in s.calls && s.calls[c] == Call(text, location, CountingMiss) && Promised(result)
    ensures Enabled(s, Count(c, true))
    ensures var s1 := Apply(s, Count(c, true));
      && Enabled(s1, Ask(c, Returns(result), 0))
      && var s2 := Apply(s1, Ask(c, Returns(result), 0));
      && s2.config == s.config && s2.redis.now == s.redis.now && s2.touched == s.touched
      && s2.calls == s.calls[c :=
           Call(text, location, Keeping(Outcome(result, JString(s.config.name), 0, false, false, None)))]
  {
    hide KeyFor, Rules.Triage, Payload, RecordOf, Validate, Examine, Promised;
  }

  lemma KeptSteps(s: Sys, c: Cid, text: string, location: string, result: TriageResult)
    requires c in s.calls && s.config.ttl > 0
    requires s.calls[c] ==
      Call(text, location, Keeping(Outcome(result, JString(s.config.name), 0, false, false, None)))
    ensures Enabled(s, Keep(c, true))
    ensures var s1 := Apply(s, Keep(c, true));
      && Enabled(s1, Push(c, true, ""))
      && var s2 := Apply(s1, Push(c, true, ""));
      && s2.config == s.config && s2.redis.now == s.redis.now && s2.touched == s.touched
      && s2.calls == s.calls[c :=
           Call(text, location, Done(Outcome(result, JString(s.config.name), 0, false, false, None)))]
      && Stores(s2, text, location, result, s.redis.now + 1000 * s.config.ttl)
  {
    hide KeyFor, Rules.Triage, Payload, RecordOf, Validate, Examine, Settle, Newest;
  }

  lemma HitRun(origin: Sys, run: seq<Event>, d: Cid, text: string, location: string, result: TriageResult, wait: nat)
    returns (run': seq<Event>)
    requires Legal(origin, run) && Promised(result) && d !in After(origin, run).calls
    requires var s := After(origin, run);
      wait < 1000 * s.config.ttl && Stores(s, text, location, result, s.redis.now + 1000 * s.config.ttl)
    ensures Legal(origin, run')
    ensures var s, s' := After(origin, run), After(origin, run');
      s'.calls == s.calls[d :=
        Call(text, location, Done(Outcome(result, JString(s.config.name), 0, false, true, None)))]
  {
    hide Legal, After, Apply, Enabled, Promised;
    FoundSteps(After(origin, run), d, text, location, result, wait);
    Extend(origin, run, Tick(wait));
    run' := run + [Tick(wait)];
    Extend(origin, run', Begin(d, text, location));
    run' := run' + [Begin(d, text, location)];
    Extend(origin, run', Get(d, true, 0));
    run' := run' + [Get(d, true, 0)];
    HitSteps(After(origin, run'), d, text, location, result);
    Extend(origin, run', Count(d, true));
    run' := run' + [Count(d, true)];
    Extend(origin, run', Push(d, true, ""));
    run' := run' + [Push(d, true, "")];
  }

  lemma FoundSteps(s: Sys, d: Cid, text: string, location: string, result: TriageResult, wait: nat)
    requires d !in s.calls && Promised(result) && wait < 1000 * s.config.ttl
    requires Stores(s, text, location, result, s.redis.now + 1000 * s.config.ttl)
    ensures Enabled(s, Tick(wait))
    ensures var s1 := Apply(s, Tick(wait));
      && Enabled(s1, Begin(d, text, location))
      && var s2 := Apply(s1, Begin(d, text, location));
      && Enabled(s2, Get(d, true, 0))
      && var s3 := Apply(s2, Get(d, true, 0));
      && s3.config == s.config
      && s3.calls == s.calls[d :=
           Call(text, location, CountingHit(Outcome(result, JString(s.config.name), 0, false, true, None)))]
  {
    hide KeyFor, Rules.Triage, RecordOf, Validate, Settle, Promised, Dump;
    DumpThenValidate(result, s.config.float);
  }

  lemma HitSteps(s: Sys, d: Cid, text: string, location: string, result: TriageResult)
    requires d in s.calls
    requires s.calls[d] ==
      Call(text, location, CountingHit(Outcome(result, JString(s.config.name), 0, false, true, None)))
    ensures Enabled(s, Count(d, true))
    ensures var s1 := Apply(s, Count(d, true));
      && Enabled(s1, Push(d, true, ""))
      && Apply(s1, Push(d, true, "")).calls == s.calls[d :=
           Call(text, location, Done(Outcome(result, JString(s.config.name), 0, false, true, None)))]
  {
    hide KeyFor, Rules.Triage, Payload, RecordOf, Validate, Examine, Settle, Newest;
  }

  /** An object another client has left that is of no use is dropped, and the key serves again: a run in which the
      call that finds it stores the provider's answer in its place. */
  lemma PoisonedEntryIsReplaced(origin: Sys, c: Cid, text: string, location: string, fields: map<string, Json>,
                                result: TriageResult)
    returns (run: seq<Event>)
    requires Initial(origin) && Promised(result) && origin.config.ttl > 0
    requires "result" !in fields || "triaged_by" !in fields || Validate(fields["result"], origin.config.float).None?
    ensures Legal(origin, run) && KeyFor(origin.config, text, location) in After(origin, run).touched
    ensures var s := After(origin, run);
      && s.config == origin.config && c in s.calls
      && s.calls[c] == Call(text, location, Done(Outcome(result, JString(s.config.name), 0, false, false, None)))
      && Stores(s, text, location, result, s.redis.now + 1000 * s.config.ttl)
  {
    hide Legal, After, Initial, Promised, Stores, KeyFor, Validate;
    run := PoisonedRun(origin, c, text, location, fields);
    run := AnsweredRun(origin, run, c, text, location, result);
  }

  lemma PoisonedRun(origin: Sys, c: Cid, text: string, location: string, fields: map<string, Json>)
    returns (run: seq<Event>)
    requires Initial(origin)
    requires "result" !in fields || "triaged_by" !in fields || Validate(fields["result"], origin.config.float).None?
    ensures Legal(origin, run)
    ensures var s := After(origin, run);
      && s.config == origin.config && s.calls == map[c := Call(text, location, CountingMiss)]
      && s.touched == {KeyFor(origin.config, text, location)}
      && Lookup(s.redis, KeyFor(origin.config, text, location)) == Missing
  {
    var tamper := Tamper(KeyFor(origin.config, text, location), Encoded(JObject(fields)), origin.redis.now + 1);
    assert Legal(origin, []) && After(origin, []) == origin;
    hide Legal, After, Apply, Enabled, Rules.Triage, Initial, KeyFor, Validate;
    PoisonedSteps(origin, c, text, location, fields);
    Extend(origin, [], tamper);
    Extend(origin, [] + [tamper], Begin(c, text, location));
    run := [] + [tamper] + [Begin(c, text, location)];
    DroppedSteps(After(origin, run), c, text, location, fields);
    Extend(origin, run, Get(c, true, 0));
    run := run + [Get(c, true, 0)];
    Extend(origin, run, Discard(c, true));
    run := run + [Discard(c, true)];
  }

  lemma PoisonedSteps(s: Sys, c: Cid, text: string, location: string, fields: map<string, Json>)
    requires Initial(s)
    ensures var key := KeyFor(s.config, text, location);
      var tamper := Tamper(key, Encoded(JObject(fields)), s.redis.now + 1);
      && Enabled(s, tamper)
      && var s1 := Apply(s, tamper);
      && Enabled(s1, Begin(c, text, location))
      && var s2 := Apply(s1, Begin(c, text, location));
      && s2.config == s.config && s2.touched == {key}
      && s2.calls == map[c := Call(text, location, Looking)]
      && Lookup(s2.redis, key) == Found(JObject(fields))
  {
    hide KeyFor, Rules.Triage, Payload, RecordOf, Validate, Settle;
  }

  lemma DroppedSteps(s: Sys, c: Cid, text: string, location: string, fields: map<string, Json>)
    requires s.calls == map[c := Call(text, location, Looking)]
    requires Lookup(s.redis, KeyFor(s.config, text, location)) == Found(JObject(fields))
    requires "result" !in fields || "triaged_by" !in fields || Validate(fields["result"], s.config.float).None?
    ensures Enabled(s, Get(c, true, 0))
    ensures var s1 := Apply(s, Get(c, true, 0));
      && Enabled(s1, Discard(c, true))
      && var s2 := Apply(s1, Discard(c, true));
      && s2.config == s.config && s2.touched == s.touched
      && s2.calls == map[c := Call(text, location, CountingMiss)]
      && Lookup(s2.redis, KeyFor(s.config, text, location)) == Missing
  {
    hide KeyFor, Rules.Triage, Payload, RecordOf, Validate, Settle;
  }

  // ---------------------------------------------------------------- what operators read

  /** The form in which the recent outcomes are shown. */
  datatype Shown = Shown(
    complaintId: string, provider: string, latencyMs: int, fallback: bool, cached: bool, error: Option<string>,
    at: string)

  /** `TriageOutcome.model_validate`, with the time of day left as text. */
  function ReadShown(j: Json): Option<Shown> {
    if !j.JObject? || !({"complaint_id", "provider", "latency_ms", "fallback", "cached", "at"} <= j.fields.Keys) then
      None
    else
      var id, provider, ms := j.fields["complaint_id"], j.fields["provider"], j.fields["latency_ms"];
      var fallback, cached, at := j.fields["fallback"], j.fields["cached"], j.fields["at"];
      var error := if "error" in j.fields then j.fields["error"] else JNull;
      if id.JString? && provider.JString? && ms.JNumber? && ms.x == ms.x.Floor as real && fallback.JBool?
         && cached.JBool? && at.JString? && (error.JNull? || error.JString?) then
        Some(Shown(id.s, provider.s, ms.x.Floor, fallback.b, cached.b,
                   if error.JNull? then None else Some(error.s), at.s))
      else None
  }

  /** What is recorded of an outcome is read back as that outcome, provided its provider's name is text. */
  lemma RecordReadsBack(c: Cid, o: Outcome, at: string)
    ensures ReadShown(RecordOf(c, o, at)) ==
      match o.triagedBy
      case JString(name) => Some(Shown(c, name, o.latencyMs, o.fallback, o.cached, o.error, at))
      case _ => None
  {
    var fields := RecordOf(c, o, at).fields;
    assert {"complaint_id", "provider", "latency_ms", "fallback", "cached", "at"} <= fields.Keys;
    assert (o.latencyMs as real).Floor == o.latencyMs;
  }

  /** So each line of the operators' list tells of one completed call what it came to. */
  lemma RecentTellsOutcomes(origin: Sys, run: seq<Event>, i: nat)
    requires Initial(origin) && i < |After(origin, run).pushed|
    ensures var s := After(origin, run);
      && i < |s.order| && s.order[i] in s.calls && s.calls[s.order[i]].phase.Done?
      && var o := s.calls[s.order[i]].phase.outcome;
      o.triagedBy.JString? ==>
        exists at :: ReadShown(s.pushed[i])
          == Some(Shown(s.order[i], o.triagedBy.s, o.latencyMs, o.fallback, o.cached, o.error, at))
  {
    hide ReadShown, RecordOf, CallsOk, EntriesOk, CountsOk;
    RunKeepsInv(origin, run);
    var s := After(origin, run);
    assert RecordedAt(s, i);
    var o := s.calls[s.order[i]].phase.outcome;
    var at :| s.pushed[i] == RecordOf(s.order[i], o, at);
    RecordReadsBack(s.order[i], o, at);
  }
}
