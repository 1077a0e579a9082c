/** The run properties of the concurrent system: how stale cached statistics can be and why, and what the
    row lock guarantees about every complaint's history. */
module StoreTheorems {
  import opened Domain
  import opened Contract
  import opened Aggregates
  import opened Cache
  import opened Store
  import opened StoreInvariant

  // ---------------------------------------------------------------- staleness

  /** In every interleaving, with any deletions lost, processes dying and rows changed from outside: what
      a reader finds in the cache was assembled from versions no older than the one current when its
      producer began, and stored less than the time to live ago. */
  lemma HitIsBounded(origin: Sys, run: seq<Event>)
    requires Initial(origin) && Live(After(origin, run).redis, STATS_KEY)
    ensures var s := After(origin, run);
      && Lookup(s.redis, STATS_KEY).Found?
      && TagOk(s, Lookup(s.redis, STATS_KEY).value)
      && s.redis.now < Lookup(s.redis, STATS_KEY).value.stored + 1000 * s.ttl
  {
    RunKeepsInv(origin, run);
  }

  /** So if no reader takes longer than `d` from its first statement to its store, every commit older
      than the time to live plus `d` is reflected in every figure of a hit. */
  lemma StalenessBound(origin: Sys, run: seq<Event>, d: nat, v: nat)
    requires Initial(origin) && Live(After(origin, run).redis, STATS_KEY)
    requires var s := After(origin, run);
      && v < |s.history| && s.history[v].at + 1000 * s.ttl + d <= s.redis.now
      && Lookup(s.redis, STATS_KEY).Found?
      && Lookup(s.redis, STATS_KEY).value.stored <= Lookup(s.redis, STATS_KEY).value.began + d
    ensures forall k | k in Lookup(After(origin, run).redis, STATS_KEY).value.saw :: v <= k
  {
    HitIsBounded(origin, run);
  }

  /** The entry a live key holds. */
  function Held(s: Sys): Tagged
    requires Lookup(s.redis, STATS_KEY).Found?
  {
    Lookup(s.redis, STATS_KEY).value
  }

  lemma SeeingOnlyTheCurrent(s: Sys, t: Tagged)
    requires Inv(s) && TagOk(s, t) && t.saw[0] == Last(s)
    ensures t.stats == StatsOf(Current(s))
  {
    var c := Current(s);
    assert Seen(s.history, t.saw) == [c, c, c, c, c];
  }

  /** Why a cached entry may differ from the table when no deletion is missed: a writer that committed
      after the entry's first statement has yet to delete the key, or had deleted it already before the
      entry, begun before that commit, was stored. */
  lemma StaleEntryExplained(origin: Sys, run: seq<Event>)
    requires Initial(origin)
    requires var s := After(origin, run);
      Live(s.redis, STATS_KEY) && s.missed == {} && Lookup(s.redis, STATS_KEY).Found?
      && Held(s).stats != StatsOf(Current(s))
    ensures var s := After(origin, run);
      exists v :: Held(s).floor < v < |s.history| && (Pending(s, v) || v in Held(s).cleared)
  {
    RunKeepsInv(origin, run);
    var s := After(origin, run);
    var t := Held(s);
    if t.saw[0] == Last(s) {
      SeeingOnlyTheCurrent(s, t);
    } else {
      assert t.floor < Last(s) && (Pending(s, Last(s)) || Last(s) in s.cleared);
    }
  }

  /** Nothing is committed while a reader is at work: what a run looks like if `get` is atomic. */
  predicate GetsAreAtomic(origin: Sys, run: seq<Event>)
    decreases |run|
  {
    run == [] ||
    (GetsAreAtomic(origin, run[..|run| - 1])
      && (run[|run| - 1].Commit? || run[|run| - 1].Foreign? ==>
           var t := After(origin, run[..|run| - 1]);
           forall p | p in t.procs :: !t.procs[p].Reading?))
  }

  /** Every reader has seen the current table only. */
  predicate ReadersCurrent(s: Sys) {
    forall p | p in s.procs && s.procs[p].Reading? ::
      s.procs[p].floor == Last(s) && forall k | k in s.procs[p].saw :: k == Last(s)
  }

  /** No writer newer than the entry's first statement had deleted the key before the entry was stored. */
  predicate EntryCurrent(s: Sys) {
    STATS_KEY in s.redis.strings && s.redis.strings[STATS_KEY].raw.Encoded? ==>
      var t := s.redis.strings[STATS_KEY].raw.value;
      |t.saw| == QUERIES && forall v | v in t.cleared :: v <= t.saw[0]
  }

  lemma {:induction false} AtomicGetsSeeOneVersion(origin: Sys, run: seq<Event>)
    requires Initial(origin) && GetsAreAtomic(origin, run)
    ensures ReadersCurrent(After(origin, run)) && EntryCurrent(After(origin, run))
    decreases |run|
  {
    hide Inv, ReadersCurrent, EntryCurrent;
    if run != [] {
      var before, e := run[..|run| - 1], run[|run| - 1];
      AtomicGetsSeeOneVersion(origin, before);
      RunKeepsInv(origin, before);
      var t := After(origin, before);
      if Enabled(t, e) {
        ReadersStayCurrent(t, e);
        EntryStaysCurrent(t, e);
      }
    } else {
      NothingYet(origin);
    }
  }

  lemma NothingYet(s: Sys)
    requires Initial(s)
    ensures ReadersCurrent(s) && EntryCurrent(s)
  {
  }

  lemma ReadersStayCurrent(s: Sys, e: Event)
    requires Enabled(s, e) && ReadersCurrent(s)
    requires e.Commit? || e.Foreign? ==> forall p | p in s.procs :: !s.procs[p].Reading?
    ensures ReadersCurrent(Apply(s, e))
  {
    hide Tag, Lookup, Put, Drop;
  }

  lemma EntryStaysCurrent(s: Sys, e: Event)
    requires Inv(s) && Enabled(s, e) && ReadersCurrent(s) && EntryCurrent(s)
    ensures EntryCurrent(Apply(s, e))
  {
    hide Assemble, Seen, LocksOk, HistoryOk, ReadersOk, OwnersOk, Lookup;
    if e.Fill? {
      FilledIsCurrent(s, e);
    }
  }

  lemma FilledIsCurrent(s: Sys, e: Event)
    requires DeletesOk(s) && Enabled(s, e) && e.Fill? && ReadersCurrent(s) && EntryCurrent(s)
    ensures EntryCurrent(Apply(s, e))
  {
    hide Assemble, Seen, Lookup;
    var saw := s.procs[e.p].saw;
    assert saw[0] in saw;
  }

  /** With atomic reads and no deletion missed, a live entry differs from the table only while a writer
      is between its commit and its deletion: at rest the cache is empty or exact. */
  lemma AtomicGetsAreExactAtRest(origin: Sys, run: seq<Event>)
    requires Initial(origin) && GetsAreAtomic(origin, run)
    requires var s := After(origin, run); Live(s.redis, STATS_KEY) && s.missed == {}
    ensures var s := After(origin, run);
      && Lookup(s.redis, STATS_KEY).Found?
      && (Held(s).stats == StatsOf(Current(s)) || Pending(s, Last(s)))
  {
    RunKeepsInv(origin, run);
    AtomicGetsSeeOneVersion(origin, run);
    var s := After(origin, run);
    if Held(s).saw[0] == Last(s) {
      SeeingOnlyTheCurrent(s, Held(s));
    }
  }

  /** Deleting the key after the commit does not by itself keep a concurrent reader from caching stale
      numbers: a reader that collected before the commit stores after the deletion, nothing is lost and
      everyone is done, yet the live entry does not count the row that has been committed. */
  lemma ReaderMayRecacheStaleNumbers(ttl: int, row: Complaint) returns (origin: Sys, run: seq<Event>)
    requires ttl > 0 && row.status == Open
    ensures Initial(origin) && Legal(origin, run)
    ensures var s := After(origin, run);
      && Live(s.redis, STATS_KEY) && s.missed == {} && Last(s) == 1
      && (forall v | 0 < v < |s.history| :: !Pending(s, v))
      && Lookup(s.redis, STATS_KEY).Found?
      && Held(s).stats.total == 0 && StatsOf(Current(s)).total == 1
  {
    origin := Sys(ttl, Redis(0, map[], map[], map[]), [Version(map[], 0, false)], map[], map[], {}, {});
    assert Initial(origin);
    hide After, Legal, Initial, StatsOf, Apply;
    run := ReaderCollects(origin);
    run := WriterCreates(origin, run, row);
    var s := After(origin, run);
    StaleFill(s, row);
    Extend(origin, run, Fill(1, true));
    run := run + [Fill(1, true)];
  }

  lemma StaleFill(s: Sys, row: Complaint)
    requires s.history == [Version(map[], 0, false), Version(map[0 := row], 0, false)]
    requires Of(s, 1) == Reading(0, 0, [0, 0, 0, 0, 0]) && s.redis.now == 0 && s.ttl > 0 && s.missed == {}
    requires forall p | p in s.procs :: !s.procs[p].Committed?
    ensures var s' := Apply(s, Fill(1, true));
      && Live(s'.redis, STATS_KEY) && s'.missed == {} && Last(s') == 1
      && (forall v | 0 < v < |s'.history| :: !Pending(s', v))
      && Lookup(s'.redis, STATS_KEY).Found?
      && Held(s').stats.total == 0 && StatsOf(Current(s')).total == 1
  {
    hide CountBy, ZeroFill;
    assert Seen(s.history, [0, 0, 0, 0, 0])[0] == map[];
  }

  lemma Extend(s: Sys, run: seq<Event>, e: Event)
    requires Legal(s, run) && Enabled(After(s, run), e)
    ensures Legal(s, run + [e]) && After(s, run + [e]) == Apply(After(s, run), e)
  {
    assert (run + [e])[..|run + [e]| - 1] == run;
  }

  lemma ReaderCollects(s0: Sys) returns (run: seq<Event>)
    requires s0.history == [Version(map[], 0, false)] && s0.procs == map[] && s0.redis.now == 0
    requires STATS_KEY !in s0.redis.strings
    ensures Legal(s0, run) && After(s0, run) == s0.(procs := map[1 := Reading(0, 0, [0, 0, 0, 0, 0])])
  {
    assert Legal(s0, []) && After(s0, []) == s0;
    hide After, Legal;
    ProbeMisses(s0);
    hide Apply, Enabled;
    Extend(s0, [], Probe(1, true));
    run := [] + [Probe(1, true)];
    run := ReaderQueries(s0, run, [], [0]);
    run := ReaderQueries(s0, run, [0], [0, 0]);
    run := ReaderQueries(s0, run, [0, 0], [0, 0, 0]);
    run := ReaderQueries(s0, run, [0, 0, 0], [0, 0, 0, 0]);
    run := ReaderQueries(s0, run, [0, 0, 0, 0], [0, 0, 0, 0, 0]);
  }

  lemma ProbeMisses(s: Sys)
    requires s.history == [Version(map[], 0, false)] && s.procs == map[] && s.redis.now == 0
    requires STATS_KEY !in s.redis.strings
    ensures Enabled(s, Probe(1, true)) && Apply(s, Probe(1, true)) == s.(procs := map[1 := Reading(0, 0, [])])
  {
  }

  lemma ReaderQueries(s0: Sys, run: seq<Event>, saw: seq<nat>, saw': seq<nat>) returns (run': seq<Event>)
    requires |s0.history| == 1 && |saw| < QUERIES && saw' == saw + [0]
    requires Legal(s0, run) && After(s0, run) == s0.(procs := map[1 := Reading(0, 0, saw)])
    ensures Legal(s0, run') && After(s0, run') == s0.(procs := map[1 := Reading(0, 0, saw')])
  {
    hide After, Legal;
    Extend(s0, run, Query(1));
    run' := run + [Query(1)];
    assert After(s0, run').procs == map[1 := Reading(0, 0, saw')];
  }

  lemma WriterCreates(s0: Sys, run: seq<Event>, row: Complaint) returns (run': seq<Event>)
    requires Legal(s0, run) && row.status == Open
    requires var s := After(s0, run);
      s.history == [Version(map[], 0, false)] && s.redis.now == 0 && s.missed == {} && Of(s, 2).Idle?
    ensures var s, s' := After(s0, run), After(s0, run');
      && Legal(s0, run')
      && s'.history == [Version(map[], 0, false), Version(map[0 := row], 0, false)]
      && s'.redis.now == 0 && s'.missed == {} && s'.ttl == s.ttl && s'.procs == s.procs[2 := Finished(1)]
  {
    hide After, Legal;
    var s := After(s0, run);
    Extend(s0, run, Insert(2, 0, row));
    run' := run + [Insert(2, 0, row)];
    Extend(s0, run', Commit(2));
    run' := run' + [Commit(2)];
    assert After(s0, run').history == [Version(map[], 0, false), Version(map[0 := row], 0, false)];
    Extend(s0, run', Invalidate(2, true));
    run' := run' + [Invalidate(2, true)];
    assert After(s0, run').procs == s.procs[2 := Finished(1)];
  }

  /** The bound is met, and the time to live alone, which the service promises, is not one: for every time to live
      and every `d`, a run in which a hit after the longest possible wait misses a commit that was made `d` before
      the entry was stored. No deletion is lost. */
  lemma StalenessBoundIsTight(ttl: int, d: nat, row: Complaint) returns (origin: Sys, run: seq<Event>)
    requires ttl > 0 && row.status == Open
    ensures Initial(origin) && Legal(origin, run)
    ensures var s := After(origin, run);
      && s.ttl == ttl && s.missed == {} && Live(s.redis, STATS_KEY) && Lookup(s.redis, STATS_KEY).Found?
      && Held(s).stored == Held(s).began + d
      && |s.history| == 2 && s.history[1].at + 1000 * ttl + d - 1 == s.redis.now
      && Held(s).stats.total == 0 && StatsOf(Current(s)).total == 1
  {
    origin := Sys(ttl, Redis(0, map[], map[], map[]), [Version(map[], 0, false)], map[], map[], {}, {});
    assert Initial(origin);
    hide After, Legal, Initial, StatsOf, Apply, Enabled;
    run := ReaderCollects(origin);
    run := WriterCreates(origin, run, row);
    LateFill(After(origin, run), d, row);
    Extend(origin, run, Tick(d));
    run := run + [Tick(d)];
    Extend(origin, run, Fill(1, true));
    run := run + [Fill(1, true)];
    Extend(origin, run, Tick(1000 * ttl - 1));
    run := run + [Tick(1000 * ttl - 1)];
  }

  lemma LateFill(s: Sys, d: nat, row: Complaint)
    requires s.history == [Version(map[], 0, false), Version(map[0 := row], 0, false)]
    requires Of(s, 1) == Reading(0, 0, [0, 0, 0, 0, 0]) && s.redis.now == 0 && s.ttl > 0 && s.missed == {}
    ensures Enabled(s, Tick(d))
    ensures var s1 := Apply(s, Tick(d));
      && Enabled(s1, Fill(1, true))
      && var s2 := Apply(s1, Fill(1, true));
      && Enabled(s2, Tick(1000 * s.ttl - 1))
      && var s3 := Apply(s2, Tick(1000 * s.ttl - 1));
      && s3.ttl == s.ttl && s3.missed == {} && s3.history == s.history && s3.redis.now == 1000 * s.ttl + d - 1
      && Live(s3.redis, STATS_KEY) && Lookup(s3.redis, STATS_KEY).Found?
      && Held(s3).began == 0 && Held(s3).stored == d
      && Held(s3).stats.total == 0 && StatsOf(Current(s3)).total == 1
  {
    hide CountBy, ZeroFill;
    assert Seen(s.history, [0, 0, 0, 0, 0])[0] == map[];
  }

  // ---------------------------------------------------------------- one complaint's history

  predicate OwnCommitsOnly(history: seq<Version>) {
    forall i | 0 < i < |history| :: !history[i].foreign
  }

  /** The statuses a complaint has had through the first `n` versions, repetitions dropped. */
  function Trail(history: seq<Version>, id: Id, n: nat): seq<Status>
    requires n <= |history|
  {
    if n == 0 || id !in history[n - 1].table then []
    else
      var before, status := Trail(history, id, n - 1), history[n - 1].table[id].status;
      if before != [] && before[|before| - 1] == status then before else before + [status]
  }

  lemma LegalStepFor(t: Table, t': Table, id: Id)
    requires LegalStep(t, t')
    ensures id in t ==> (
      && id in t' && t'[id] == t[id].(status := t'[id].status)
      && (t'[id].status == t[id].status || CanTransition(t[id].status, t'[id].status)))
    ensures id in t' && id !in t ==> t'[id].status == Open
    ensures |t| <= |t'|
  {
    assert t.Keys <= t'.Keys;
    SmallerSet(t.Keys, t'.Keys);
  }

  lemma SmallerSet<T>(a: set<T>, b: set<T>)
    requires a <= b
    ensures |a| <= |b|
  {
    assert b == a + (b - a);
  }

  /** Every run of row-locked status changes, however interleaved: what a complaint has been through is a
      path in the transition table, starting at open if it was created during the run. */
  lemma {:induction false} HistoryIsPath(s: Sys, id: Id, n: nat)
    requires HistoryOk(s) && OwnCommitsOnly(s.history) && 0 < n <= |s.history|
    ensures var trail := Trail(s.history, id, n);
      && (trail == [] <==> id !in s.history[n - 1].table)
      && (trail != [] ==> trail[|trail| - 1] == s.history[n - 1].table[id].status)
      && IsPath(trail)
      && (id !in s.history[0].table && trail != [] ==> trail[0] == Open)
  {
    if n > 1 {
      HistoryIsPath(s, id, n - 1);
      assert !s.history[n - 1].foreign;
      LegalStepFor(s.history[n - 2].table, s.history[n - 1].table, id);
    } else {
      assert Trail(s.history, id, 0) == [];
    }
  }

  lemma ComplaintHistory(origin: Sys, run: seq<Event>, id: Id)
    requires Initial(origin) && OwnCommitsOnly(After(origin, run).history)
    ensures var s := After(origin, run);
      var trail := Trail(s.history, id, |s.history|);
      && IsPath(trail) && |trail| <= 3
      && (id in Current(s) ==> trail != [] && trail[|trail| - 1] == Current(s)[id].status)
      && (id in Current(s) && id !in origin.history[0].table ==> trail[0] == Open)
  {
    RunKeepsInv(origin, run);
    OriginStays(origin, run);
    var s := After(origin, run);
    HistoryIsPath(s, id, |s.history|);
    var trail := Trail(s.history, id, |s.history|);
    if trail != [] { PathsAreShort(trail); }
  }

  lemma {:induction false} OriginStays(origin: Sys, run: seq<Event>)
    requires Initial(origin)
    ensures origin.history <= After(origin, run).history
    decreases |run|
  {
    if run != [] {
      OriginStays(origin, run[..|run| - 1]);
      var t := After(origin, run[..|run| - 1]);
      if Enabled(t, run[|run| - 1]) { HistoryGrows(t, run[|run| - 1]); }
    }
  }

  lemma {:induction false} HistoryExtends(origin: Sys, run: seq<Event>, more: seq<Event>)
    requires run <= more
    ensures After(origin, run).history <= After(origin, more).history
    decreases |more|
  {
    if |run| < |more| {
      var before := more[..|more| - 1];
      assert run <= before;
      HistoryExtends(origin, run, before);
      var t := After(origin, before);
      if Enabled(t, more[|more| - 1]) { HistoryGrows(t, more[|more| - 1]); }
    } else {
      assert run == more;
    }
  }

  /** A request that has come to an end stays as it is. */
  lemma {:induction false} OverStays(origin: Sys, run: seq<Event>, more: seq<Event>, p: Pid)
    requires run <= more && Over(Of(After(origin, run), p))
    ensures Of(After(origin, more), p) == Of(After(origin, run), p)
    decreases |more|
  {
    if |run| < |more| {
      var before := more[..|more| - 1];
      assert run <= before;
      OverStays(origin, run, before, p);
      var t := After(origin, before);
      if Enabled(t, more[|more| - 1]) { OverStep(t, more[|more| - 1], p); }
    } else {
      assert run == more;
    }
  }

  lemma OverStep(s: Sys, e: Event, p: Pid)
    requires Enabled(s, e) && Over(Of(s, p))
    ensures Of(Apply(s, e), p) == Of(s, p)
  {
    hide Tag, Lookup, Put, Drop;
  }

  /** Between two versions a complaint only climbs, and its other columns never change. */
  lemma {:induction false} RowsClimb(s: Sys, id: Id, i: nat, j: nat)
    requires HistoryOk(s) && OwnCommitsOnly(s.history) && i <= j < |s.history| && id in s.history[i].table
    ensures id in s.history[j].table
    ensures var a, b := s.history[i].table[id], s.history[j].table[id];
      && b == a.(status := b.status)
      && Stage(a.status) <= Stage(b.status)
      && (Stage(a.status) == Stage(b.status) ==> a == b)
    decreases j - i
  {
    if i < j {
      RowsClimb(s, id, i, j - 1);
      assert !s.history[j].foreign;
      LegalStepFor(s.history[j - 1].table, s.history[j].table, id);
    }
  }

  /** Version `i` is the commit that moved the complaint to `target`. */
  predicate Moves(history: seq<Version>, id: Id, i: nat, target: Status) {
    && 0 < i < |history|
    && id in history[i - 1].table && history[i - 1].table[id].status != target
    && id in history[i].table && history[i].table[id].status == target
  }

  /** Of any number of requests to move one complaint to one status, at most one is ever committed; and
      a terminal status is never left. */
  lemma AtMostOneSucceeds(origin: Sys, run: seq<Event>, id: Id, target: Status, i: nat, j: nat)
    requires Initial(origin) && OwnCommitsOnly(After(origin, run).history)
    requires Moves(After(origin, run).history, id, i, target) && Moves(After(origin, run).history, id, j, target)
    ensures i == j
  {
    hide LegalStep, HistoryOk, OwnCommitsOnly, After;
    RunKeepsInv(origin, run);
    var s := After(origin, run);
    var lo, hi := if i < j then i else j, if i < j then j else i;
    if lo < hi {
      RowsClimb(s, id, hi - 1, hi);
      RowsClimb(s, id, lo, hi - 1);
    }
  }

  lemma TerminalIsForever(origin: Sys, run: seq<Event>, id: Id, i: nat, j: nat)
    requires Initial(origin) && OwnCommitsOnly(After(origin, run).history)
    requires i <= j < |After(origin, run).history| && id in After(origin, run).history[i].table
    requires After(origin, run).history[i].table[id].status in {Resolved, Rejected}
    ensures id in After(origin, run).history[j].table
    ensures After(origin, run).history[j].table[id] == After(origin, run).history[i].table[id]
  {
    RunKeepsInv(origin, run);
    RowsClimb(After(origin, run), id, i, j);
  }

  // ---------------------------------------------------------------- the five statements

  lemma {:induction false} TablesGrow(s: Sys, i: nat, j: nat)
    requires HistoryOk(s) && OwnCommitsOnly(s.history) && i <= j < |s.history|
    ensures |s.history[i].table| <= |s.history[j].table|
    decreases j - i
  {
    if i < j {
      TablesGrow(s, i, j - 1);
      assert !s.history[j].foreign;
      LegalStepFor(s.history[j - 1].table, s.history[j].table, 0);
    }
  }

  /** With commits allowed between the five statements, the figures of one answer may disagree, but only
      in the order they were taken: each breakdown counts at least as many rows as the one before, and
      all agree if no complaint was created meanwhile. */
  lemma FiguresDisagreeInOrder(origin: Sys, run: seq<Event>, saw: seq<nat>)
    requires Initial(origin) && OwnCommitsOnly(After(origin, run).history)
    requires |saw| == QUERIES && Rising(saw) && forall k | 0 <= k < |saw| :: saw[k] < |After(origin, run).history|
    ensures var s := After(origin, run);
      var a := Assemble(Seen(s.history, saw));
      && a.total <= Sum(a.byCategory) <= Sum(a.byPriority) <= Sum(a.byStatus) <= Sum(a.byTriagedBy)
      && (|s.history[saw[0]].table| == |s.history[saw[4]].table| ==> a.total == Sum(a.byTriagedBy))
  {
    hide After, Assemble, LegalStep, Sum;
    RunKeepsInv(origin, run);
    var s := After(origin, run);
    BreakdownsAddUp(Seen(s.history, saw));
    TablesGrow(s, saw[0], saw[1]);
    TablesGrow(s, saw[1], saw[2]);
    TablesGrow(s, saw[2], saw[3]);
    TablesGrow(s, saw[3], saw[4]);
  }
}
