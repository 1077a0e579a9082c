/** The statistics and complaint services: the code whose interleavings the store's run theorems are about. */
module ComplaintServices {
  import opened Domain
  import opened Contract
  import opened Aggregates
  import opened Cache
  import opened Store
  import opened StoreInvariant
  import opened StoreTheorems
  import opened Services
  import TriageSystem
  import TriageServices
  import Rules

  /** Zero-filling what the five statements return gives the statistics of what they saw. */
  lemma FilledGroups(seen: seq<Table>)
    requires |seen| == QUERIES
    ensures var g := GroupedOf(seen);
      Assemble(seen) == Stats(g.total, ZeroFill(g.byCategory, ALL_CATEGORIES), ZeroFill(g.byPriority, ALL_PRIORITIES),
                              ZeroFill(g.byStatus, ALL_STATUSES), g.byTriagedBy, g.avgLatency)
  {
  }

  lemma SeenKept(h: seq<Version>, h': seq<Version>, began: nat, floor: nat, saw: seq<nat>)
    requires h <= h' && Collected(h, began, floor, saw)
    ensures Seen(h', saw) == Seen(h, saw)
  {
  }

  lemma FillStep(s: Sys, p: Pid, up: bool, value: Tagged)
    requires Of(s, p).Reading? && |Of(s, p).saw| == QUERIES && value == Tag(s, Of(s, p)) && TagOk(s, value)
    ensures var s' := Apply(s, Fill(p, up));
      && s'.redis == (if up then Put(s.redis, STATS_KEY, value, s.ttl) else s.redis)
      && s'.history == s.history && s'.locks == s.locks && TagOk(s', value)
      && Of(s', p) == Answered(value.stats, false) && s'.redis.now == s.redis.now
  {
    hide Assemble, Seen;
  }

  /** What Redis held under the statistics' key, if it could be reached, when request `p` asked for it. */
  ghost predicate Probed(origin: Sys, before: seq<Event>, run: seq<Event>, p: Pid, up: bool, found: Fetched<Tagged>) {
    exists k ::
      |before| <= k < |run| && run[k] == Probe(p, up) && found == ProbedAt(origin, run, k, up)
  }

  function ProbedAt(origin: Sys, run: seq<Event>, k: nat, up: bool): Fetched<Tagged>
    requires k <= |run|
  {
    if up then Lookup(After(origin, run[..k]).redis, STATS_KEY) else Missing
  }

  lemma StillProbed(origin: Sys, before: seq<Event>, mid: seq<Event>, run: seq<Event>, p: Pid, up: bool,
                    found: Fetched<Tagged>)
    requires Probed(origin, before, mid, p, up, found) && mid <= run
    ensures Probed(origin, before, run, p, up, found)
  {
    var k :| |before| <= k < |mid| && mid[k] == Probe(p, up) && found == ProbedAt(origin, mid, k, up);
    assert run[k] == mid[k] && run[..k] == mid[..k];
  }

  class StatsService {
    const repo: ComplaintRepository

    constructor (repo: ComplaintRepository)
      ensures this.repo == repo
    {
      this.repo := repo;
    }

    /** `from` says where the figures came from. On a hit they are what the live entry holds, stored less
        than the time to live ago; on a miss they were collected by this request, from versions no older
        than the one current when it was called. */
    method Get(env: Environment)
      returns (stats: Stats, hit: bool, ghost from: Tagged, ghost found: Fetched<Tagged>)
      requires repo.backend.At(repo.p, Idle)
      modifies repo.backend, repo.backend.cache, repo.backend.db
      ensures repo.backend.At(repo.p, Answered(stats, hit))
      ensures TagOk(repo.backend.sys, from) && stats == from.stats
      ensures var now := repo.backend.sys.redis.now;
        if hit then from.stored <= now < from.stored + 1000 * repo.backend.ttl
        else from.stored == now && |old(repo.backend.sys).history| <= from.floor + 1
      ensures Probed(repo.backend.origin, old(repo.backend.run), repo.backend.run, repo.p, env.up(0), found)
      ensures (hit <==> found.Found?) && (hit ==> from == found.value)
      ensures !hit ==> Did(old(repo.backend.run), repo.backend.run, Fill(repo.p, env.up(1)))
    {
      hide Assemble, Seen, CountBy, ZeroFill, AvgLatency, Collected, LocksOk, DeletesOk, HistoryOk, Legal, After,
        Initial;
      var backend, p := repo.backend, repo.p;
      backend.Others(p, env.others(5));
      backend.Sound();
      var cached := backend.cache.Get(STATS_KEY, env.up(0));
      ghost var before := backend.run;
      backend.Record(Probe(p, env.up(0)));
      found := cached;
      assert backend.run[|before|] == Probe(p, env.up(0)) && backend.run[..|before|] == before;
      assert found == ProbedAt(backend.origin, backend.run, |before|, env.up(0));
      if cached.Found? {
        return cached.value.stats, true, cached.value, found;
      }
      ghost var probed := backend.run;
      stats, from := Collect(env, backend.sys.redis.now, Last(backend.sys));
      hit := false;
      StillProbed(backend.origin, old(backend.run), probed, backend.run, p, env.up(0), found);
    }

    /** The miss path: aggregate, complete with zeros, store. */
    method Collect(env: Environment, began: nat, floor: nat) returns (stats: Stats, ghost from: Tagged)
      requires repo.backend.At(repo.p, Reading(began, floor, []))
      modifies repo.backend, repo.backend.cache, repo.backend.db
      ensures repo.backend.At(repo.p, Answered(stats, false))
      ensures TagOk(repo.backend.sys, from) && stats == from.stats
      ensures from.stored == repo.backend.sys.redis.now && from.floor == floor
      ensures Did(old(repo.backend.run), repo.backend.run, Fill(repo.p, env.up(1)))
    {
      hide Seen, CountBy, ZeroFill, AvgLatency, Assemble, GroupedOf, TagOk, repo.backend.At;
      var agg, saw := repo.Aggregates(env, began, floor);
      stats := Stats(
        agg.total,
        ZeroFill(agg.byCategory, ALL_CATEGORIES),
        ZeroFill(agg.byPriority, ALL_PRIORITIES),
        ZeroFill(agg.byStatus, ALL_STATUSES),
        agg.byTriagedBy,
        agg.avgLatency);
      FilledGroups(Seen(repo.backend.sys.history, saw));
      from := Keep(stats, env, began, floor, saw);
    }

    method Keep(stats: Stats, env: Environment, began: nat, floor: nat, saw: seq<nat>) returns (ghost from: Tagged)
      requires |saw| == QUERIES && repo.backend.At(repo.p, Reading(began, floor, saw))
      requires stats == Assemble(Seen(repo.backend.sys.history, saw))
      modifies repo.backend, repo.backend.cache, repo.backend.db
      ensures repo.backend.At(repo.p, Answered(stats, false))
      ensures TagOk(repo.backend.sys, from) && stats == from.stats
      ensures from.stored == repo.backend.sys.redis.now && from.floor == floor
      ensures Did(old(repo.backend.run), repo.backend.run, Fill(repo.p, env.up(1)))
    {
      hide Seen, CountBy, ZeroFill, AvgLatency, Assemble, Legal, After, Initial, LocksOk, HistoryOk, DeletesOk, EntryOk;
      var backend, p := repo.backend, repo.p;
      ghost var history := backend.sys.history;
      backend.Sound();
      backend.Others(p, env.others(6));
      backend.Sound();
      SeenKept(history, backend.sys.history, began, floor, saw);
      var sys := backend.sys;
      var value := Tagged(stats, began, floor, saw, sys.redis.now, sys.cleared);
      assert TagOk(sys, value);
      backend.cache.Set(STATS_KEY, value, backend.ttl, env.up(1));
      from := value;
      FillStep(sys, p, env.up(1), value);
      ghost var before := backend.run;
      backend.Record(Fill(p, env.up(1)));
      assert backend.run[|before|] == Fill(p, env.up(1));
    }

    method Invalidate(ghost v: nat, env: Environment)
      requires repo.backend.At(repo.p, Committed(v))
      modifies repo.backend, repo.backend.cache, repo.backend.db
      ensures repo.backend.At(repo.p, Finished(v))
      ensures old(repo.backend.sys).history <= repo.backend.sys.history
      ensures v in if env.up(2) then repo.backend.sys.cleared else repo.backend.sys.missed
    {
      var backend, p := repo.backend, repo.p;
      backend.Others(p, env.others(7));
      backend.cache.Delete(STATS_KEY, env.up(2));
      backend.Record(Store.Invalidate(p, env.up(2)));
    }
  }

  const TRIAGED_BY_MAX := 32
  const INTEGER_MAX := 0x7fff_ffff

  /** The length limits and CHECK constraints of the table, as they stand there. */
  predicate Storable(row: Complaint) {
    && 10 <= |row.text| <= 2000
    && 3 <= |row.location| <= 200
    && (row.contact.Some? ==> |row.contact.value| <= 200)
    && |row.summary| <= 140
    && |row.triagedBy| <= 32
    && 0 <= row.latencyMs <= 0x7fff_ffff
  }

  /** The provider's name and the latency fit the columns they go into. */
  predicate FitsColumns(o: TriageSystem.Outcome) {
    o.triagedBy.JString? && |o.triagedBy.s| <= TRIAGED_BY_MAX && o.latencyMs <= INTEGER_MAX
  }

  /** Version `v` is the commit that inserted `row` and changed nothing else. */
  predicate Inserts(history: seq<Version>, id: Id, v: nat, row: Complaint) {
    0 < v < |history| && id !in history[v - 1].table && history[v].table == history[v - 1].table[id := row]
  }

  /** Version `v` is the commit that moved the complaint to `target` and changed nothing else. */
  predicate Updates(history: seq<Version>, id: Id, v: nat, target: Status) {
    && 0 < v < |history| && id in history[v - 1].table
    && CanTransition(history[v - 1].table[id].status, target)
    && history[v].table == history[v - 1].table[id := history[v - 1].table[id].(status := target)]
  }

  /** Request `p` has been told, by the end of this run, that it moved the complaint to `target`. */
  ghost predicate Told(origin: Sys, run: seq<Event>, p: Pid, id: Id, target: Status) {
    var s := After(origin, run);
    Of(s, p).Finished? && Updates(s.history, id, Of(s, p).version, target)
  }

  /** However many requests ask for the same status of the same complaint, only one is ever told it succeeded. */
  lemma OneWinner(origin: Sys, earlier: seq<Event>, run: seq<Event>, id: Id, target: Status, p: Pid, q: Pid)
    requires Initial(origin) && OwnCommitsOnly(After(origin, run).history) && earlier <= run
    requires Told(origin, earlier, p, id, target) && Told(origin, run, q, id, target)
    ensures p == q
  {
    hide After, HistoryOk, LocksOk, ReadersOk, EntryOk, DeletesOk;
    OverStays(origin, earlier, run, p);
    HistoryExtends(origin, earlier, run);
    RunKeepsInv(origin, run);
    var s := After(origin, run);
    var v, w := Of(s, p).version, Of(s, q).version;
    SameUpdate(After(origin, earlier).history, s.history, id, v, target);
    TransitionsMove(s.history[v - 1].table[id].status, target);
    TransitionsMove(s.history[w - 1].table[id].status, target);
    AtMostOneSucceeds(origin, run, id, target, v, w);
  }

  lemma SameUpdate(h: seq<Version>, h': seq<Version>, id: Id, v: nat, target: Status)
    requires h <= h' && Updates(h, id, v, target)
    ensures Updates(h', id, v, target)
  {
  }

  /** What `create` came to: a row; an exception of the triage service; a row the table refuses; or an
      identifier already taken. */
  datatype Created =
    | Created(row: Complaint)
    | Untriaged(error: TriageSystem.ErrorName)
    | Unstorable(outcome: TriageSystem.Outcome)
    | Duplicate

  datatype Changed =
    | Changed(row: Complaint)
    | NotFound
    | Conflict(current: Status, attempted: Status)
    | Unavailable

  class ComplaintService {
    const repo: ComplaintRepository
    const triage: TriageServices.TriageService
    const stats: StatsService

    constructor (repo: ComplaintRepository, triage: TriageServices.TriageService, stats: StatsService)
      ensures this.repo == repo && this.triage == triage && this.stats == stats
    {
      this.repo := repo;
      this.triage := triage;
      this.stats := stats;
    }

    /** The three parts belong to one request, and the two caches are apart. */
    ghost predicate Wired() {
      stats.repo == repo && triage.backend.cache as object != repo.backend.cache
    }

    /** Triage, then insert, commit and invalidate. A complaint that is not stored leaves the table as it
        was; the blame is then on other clients' writes to the triage cache, on a location the rules cannot
        summarise, or on a provider name or latency too large for its column. */
    method Create(id: Id, name: string, data: ComplaintCreate, createdAt: nat, env: Environment,
                  others: TriageServices.Environment)
      returns (r: Created, ghost v: nat, ghost found: Fetched<Json>)
      requires Wired() && repo.backend.At(repo.p, Idle) && Accepted(data)
      requires triage.backend.Valid() && name !in triage.backend.sys.calls
      requires others.reply.Returns? ==> Promised(others.reply.result)
      modifies repo`session, repo.backend, repo.backend.cache, repo.backend.db, triage.backend, triage.backend.cache
      ensures r.Created? ==> (
        && |old(repo.backend.sys).history| <= v && Inserts(repo.backend.sys.history, id, v, r.row)
        && repo.backend.At(repo.p, Finished(v)) && Storable(r.row))
      ensures !r.Untriaged? ==>
        var c := triage.backend.sys.calls;
        && name in c && c[name].phase.Done?
        && (r.Unstorable? <==> !FitsColumns(c[name].phase.outcome))
        && (r.Unstorable? ==> r.outcome == c[name].phase.outcome)
        && (r.Created? ==> Records(r.row, data, c[name].phase.outcome, createdAt))
      ensures r.Created? ==> TriagedAs(r.row, data, found, others)
      ensures r.Untriaged? || r.Unstorable? ==>
        repo.backend.At(repo.p, Idle) && repo.backend.run == old(repo.backend.run)
      ensures r.Untriaged? <==>
        TriageServices.Unserveable(triage.backend.config, data.text, data.location, found, others.reply)
      ensures TriageServices.Looked(
        triage.backend.origin, old(triage.backend.run), triage.backend.run, name, KeyOf(data), others, found)
      ensures r.Untriaged? ==>
        Blamed(data) || Rules.Triage(triage.backend.config.lower, data.text, data.location).None?
      ensures r.Unstorable? ==>
        Blamed(data) || |triage.backend.config.name| > TRIAGED_BY_MAX || r.outcome.latencyMs > INTEGER_MAX
      ensures r.Duplicate? ==> repo.backend.At(repo.p, Dead) && id in Current(repo.backend.sys)
    {
      hide Promised, Rules.Triage, repo.backend.At, TriageServices.FollowsReply, TriageServices.Did,
        TriageSystem.KeyFor, TriageSystem.Legal, TriageSystem.After, TriageSystem.Initial, Inserts,
        TriageServices.Looked, TriageServices.Unserveable, TriageServices.Unreadable;
      var triaged;
      triaged, found := triage.Triage(name, data.text, data.location, others);
      if triaged.Raised? {
        return Untriaged(triaged.error), 0, found;
      }
      var o := triaged.outcome;
      if !FitsColumns(o) {
        return Unstorable(o), 0, found;
      }
      var row := RowFor(data, o, createdAt);
      assert Storable(row) by { PromisedSummary(o.result); }
      RowTriagedAs(row, data, o, createdAt, found, others);
      var ok;
      ok, v := Insert(id, row, env);
      r := if ok then Created(row) else Duplicate;
    }

    /** Where the triaged columns of a stored complaint come from: the usable entry found, or else the provider's
        answer, or else the rules. */
    ghost predicate TriagedAs(row: Complaint, data: ComplaintCreate, found: Fetched<Json>,
                              others: TriageServices.Environment)
    {
      var f := triage.backend.config;
      if TriageServices.Usable(f, found) then
        && Validate(found.value.fields["result"], f.float).Some?
        && Shows(row, Validate(found.value.fields["result"], f.float).value)
        && found.value.fields["triaged_by"] == JString(row.triagedBy) && row.latencyMs == others.ms(0)
      else match others.reply
        case Returns(result) => Shows(row, result) && row.triagedBy == f.name && row.latencyMs == others.ms(3)
        case Raises(_) =>
          && Rules.Triage(f.lower, data.text, data.location).Some?
          && Shows(row, Rules.Triage(f.lower, data.text, data.location).value)
          && row.triagedBy == "rules:fallback" && row.latencyMs == others.ms(3)
    }

    lemma RowTriagedAs(row: Complaint, data: ComplaintCreate, o: TriageSystem.Outcome, createdAt: nat,
                       found: Fetched<Json>, others: TriageServices.Environment)
      requires Records(row, data, o, createdAt)
      requires TriageServices.Usable(triage.backend.config, found) ==>
        o == TriageServices.CachedOutcome(triage.backend.config, found, others.ms(0))
      requires !TriageServices.Usable(triage.backend.config, found) ==>
        TriageServices.FollowsReply(triage.backend.config, data.text, data.location, others, o)
      ensures TriagedAs(row, data, found, others)
    {
      hide Validate, Rules.Triage;
    }

    /** Other clients have written under the complaint's triage key. */
    ghost predicate Blamed(data: ComplaintCreate)
      reads triage.backend
    {
      KeyOf(data) in triage.backend.sys.touched
    }

    function KeyOf(data: ComplaintCreate): string {
      TriageSystem.KeyFor(triage.backend.config, data.text, data.location)
    }

    method Insert(id: Id, row: Complaint, env: Environment) returns (ok: bool, ghost v: nat)
      requires Wired() && repo.backend.At(repo.p, Idle) && row.status == Open
      modifies repo`session, repo.backend, repo.backend.cache, repo.backend.db
      ensures ok ==> (
        && |old(repo.backend.sys).history| <= v && Inserts(repo.backend.sys.history, id, v, row)
        && repo.backend.At(repo.p, Finished(v)))
      ensures !ok ==> repo.backend.At(repo.p, Dead) && id in Current(repo.backend.sys)
    {
      hide repo.backend.At;
      repo.Add(id, row, env);
      ok := repo.CommitNew(env);
      v := 0;
      if ok {
        v := |repo.backend.sys.history| - 1;
        stats.Invalidate(v, env);
      }
    }

    /** The row returned is the row committed, in version `v`: as it was when it was locked, but for its
        status. A conflict reports the status the complaint had in version `v`, on or after the call. */
    method ChangeStatus(id: Id, target: Status, env: Environment) returns (r: Changed, ghost v: nat)
      requires Wired() && repo.backend.At(repo.p, Idle)
      modifies repo`session, repo.backend, repo.backend.cache, repo.backend.db
      ensures r.Changed? ==> (
        && |old(repo.backend.sys).history| <= v && Updates(repo.backend.sys.history, id, v, target)
        && Advances(repo.backend.sys.history[v - 1].table[id].status, target)
        && r.row == repo.backend.sys.history[v].table[id] && repo.backend.At(repo.p, Finished(v)))
      ensures r.NotFound? ==> repo.backend.At(repo.p, Idle) && id !in Current(repo.backend.sys)
      ensures r.Conflict? ==> (
        && r.attempted == target && !CanTransition(r.current, target) && !Advances(r.current, target)
        && repo.backend.At(repo.p, Refused(r.current, target))
        && |old(repo.backend.sys).history| <= v + 1 && v < |repo.backend.sys.history|
        && id in repo.backend.sys.history[v].table && repo.backend.sys.history[v].table[id].status == r.current)
      ensures r.Unavailable? ==> repo.backend.At(repo.p, Idle) && id in repo.backend.sys.locks
    {
      hide repo.backend.At, CanTransition, Advances;
      var locking := repo.GetForUpdate(id, target, env);
      if locking.NoRow? {
        return NotFound, 0;
      } else if locking.TimedOut? {
        return Unavailable, 0;
      }
      var row := locking.row;
      AllowedIffAdvances(row.status, target);
      if !CanTransition(row.status, target) {
        v := Last(repo.backend.sys);
        repo.Rollback(id, row, target, env);
        return Conflict(row.status, target), v;
      }
      repo.SetStatus(id, row, target, env);
      repo.CommitChange(row, env);
      v := |repo.backend.sys.history| - 1;
      stats.Invalidate(v, env);
      return Changed(row.(status := target)), v;
    }
  }

  /** The row has the citizen's words, the outcome of the triage, and nothing done to it yet. */
  predicate Records(row: Complaint, data: ComplaintCreate, o: TriageSystem.Outcome, createdAt: nat) {
    && row.text == data.text && row.location == data.location && row.contact == data.contact
    && Shows(row, o.result) && o.triagedBy == JString(row.triagedBy) && row.latencyMs == o.latencyMs
    && row.status == Open && row.createdAt == createdAt
  }

  predicate Shows(row: Complaint, result: TriageResult) {
    row.category == result.category && row.priority == result.priority && row.summary == result.summary
  }

  /** The row a triaged complaint is stored as. */
  function RowFor(data: ComplaintCreate, o: TriageSystem.Outcome, createdAt: nat): Complaint
    requires o.triagedBy.JString?
  {
    Complaint(data.text, data.location, data.contact, o.result.category, o.result.priority, Open, o.result.summary,
              o.triagedBy.s, o.latencyMs, createdAt)
  }

  lemma PromisedSummary(r: TriageResult)
    requires Promised(r)
    ensures |r.summary| <= SUMMARY_MAX
  {
  }
}
