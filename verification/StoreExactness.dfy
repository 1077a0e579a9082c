/** Exactly when cached figures are those of the table: what can come between a reader's statements without
    showing, and what cannot. */
module StoreExactness {
  import opened Domain
  import opened Contract
  import opened Aggregates
  import opened Cache
  import opened Store
  import opened StoreInvariant
  import opened StoreTheorems

  // The statements of `aggregates` that decide: the first and the fourth.
  const COUNT := 0
  const BY_STATUS := 3

  /** What any number of this service's commits may do to a table. */
  ghost predicate Climbed(a: Table, b: Table) {
    forall id | id in a ::
      id in b && b[id] == a[id].(status := b[id].status) && Stage(a[id].status) <= Stage(b[id].status)
      && (Stage(a[id].status) == Stage(b[id].status) ==> a[id] == b[id])
  }

  lemma VersionsClimb(s: Sys, i: nat, j: nat)
    requires HistoryOk(s) && OwnCommitsOnly(s.history) && i <= j < |s.history|
    ensures Climbed(s.history[i].table, s.history[j].table)
  {
    hide HistoryOk, OwnCommitsOnly;
    forall id | id in s.history[i].table
      ensures var a, b := s.history[i].table, s.history[j].table;
        id in b && b[id] == a[id].(status := b[id].status) && Stage(a[id].status) <= Stage(b[id].status)
        && (Stage(a[id].status) == Stage(b[id].status) ==> a[id] == b[id])
    {
      RowsClimb(s, id, i, j);
    }
  }

  lemma SameRows(a: Table, b: Table)
    requires Climbed(a, b) && |a| == |b|
    ensures a.Keys == b.Keys
  {
    SameSet(a.Keys, b.Keys);
  }

  lemma SameSet<T>(a: set<T>, b: set<T>)
    requires a <= b && |a| == |b|
    ensures a == b
  {
    assert b == a + (b - a);
    assert b - a == {};
  }

  /** Figures of a column that is never written see only creations. */
  lemma OtherColumnsAgree<K(!new)>(a: Table, b: Table, f: Complaint -> K)
    requires Climbed(a, b) && |a| == |b|
    requires forall c: Complaint, st :: f(c.(status := st)) == f(c)
    ensures CountBy(a, f) == CountBy(b, f)
  {
    hide Climbed, Matching;
    SameRows(a, b);
    SameMatches(a, b, f);
    var g, h := CountBy(a, f), CountBy(b, f);
    assert forall k :: k in g <==> k in h;
    assert forall k | k in g :: g[k] == |Matching(a, f, k)| == |Matching(b, f, k)| == h[k];
  }

  lemma SameMatches<K(!new)>(a: Table, b: Table, f: Complaint -> K)
    requires Climbed(a, b) && a.Keys == b.Keys
    requires forall c: Complaint, st :: f(c.(status := st)) == f(c)
    ensures forall k :: Matching(a, f, k) == Matching(b, f, k)
  {
    forall k ensures Matching(a, f, k) == Matching(b, f, k) {
      forall id | id in a ensures f(a[id]) == f(b[id]) {
        assert f(a[id].(status := b[id].status)) == f(a[id]);
      }
    }
  }

  lemma LatenciesAgree(a: Table, b: Table)
    requires Climbed(a, b) && |a| == |b|
    ensures AvgLatency(a) == AvgLatency(b)
  {
    hide AvgLatency;
    SameRows(a, b);
    SameLatencies(a, b);
  }

  /** Statuses only climb, so equal counts of every status mean that nothing moved. */
  lemma EqualBucketsMeanEqualTables(a: Table, b: Table)
    requires Climbed(a, b) && |a| == |b|
    requires forall st :: |Matching(a, StatusOf, st)| == |Matching(b, StatusOf, st)|
    ensures a == b
  {
    SameRows(a, b);
    var openA, openB := Matching(a, StatusOf, Open), Matching(b, StatusOf, Open);
    SameSet(openB, openA);
    var busyA, busyB := Matching(a, StatusOf, InProgress), Matching(b, StatusOf, InProgress);
    assert busyB <= busyA by {
      forall id | id in busyB ensures id in busyA { assert id !in openB; }
    }
    SameSet(busyB, busyA);
    forall id | id in a ensures a[id] == b[id] {
      assert id in openA <==> id in openB;
      assert id in busyA <==> id in busyB;
    }
  }

  lemma FilledBuckets(a: Table, b: Table)
    requires ZeroFill(CountBy(a, StatusOf), ALL_STATUSES) == ZeroFill(CountBy(b, StatusOf), ALL_STATUSES)
    ensures forall st :: |Matching(a, StatusOf, st)| == |Matching(b, StatusOf, st)|
  {
    forall st ensures |Matching(a, StatusOf, st)| == |Matching(b, StatusOf, st)| {
      BucketCount(a, st);
      BucketCount(b, st);
    }
  }

  lemma BucketCount(t: Table, st: Status)
    ensures st in ZeroFill(CountBy(t, StatusOf), ALL_STATUSES)
    ensures ZeroFill(CountBy(t, StatusOf), ALL_STATUSES)[st] == |Matching(t, StatusOf, st)|
  {
    assert st in ALL_STATUSES;
  }

  /** Assembled figures are those of a later table exactly when nothing was created since the COUNT and the
      fourth statement saw that very table. */
  lemma AssembledExactIff(seen: seq<Table>, t: Table)
    requires |seen| == QUERIES
    requires forall i, j | 0 <= i <= j < QUERIES :: Climbed(seen[i], seen[j])
    requires forall i | 0 <= i < QUERIES :: Climbed(seen[i], t)
    ensures Assemble(seen) == StatsOf(t) <==> |seen[COUNT]| == |t| && seen[BY_STATUS] == t
  {
    hide CountBy, ZeroFill, Climbed, Matching, AvgLatency;
    if Assemble(seen) == StatsOf(t) {
      BreakdownsAddUp(seen);
      BreakdownsAddUp([t, t, t, t, t]);
      FilledBuckets(seen[3], t);
      EqualBucketsMeanEqualTables(seen[3], t);
    }
    if |seen[COUNT]| == |t| && seen[BY_STATUS] == t {
      forall i | 0 <= i < QUERIES ensures |seen[i]| == |t| {
        ClimbedGrows(seen[0], seen[i]);
        ClimbedGrows(seen[i], t);
      }
      LatenciesAgree(seen[0], t);
      OtherColumnsAgree(seen[1], t, CategoryOf);
      OtherColumnsAgree(seen[2], t, PriorityOf);
      OtherColumnsAgree(seen[4], t, ProviderOf);
    }
  }

  lemma ClimbedGrows(a: Table, b: Table)
    requires Climbed(a, b)
    ensures |a| <= |b|
  {
    assert a.Keys <= b.Keys;
    SmallerSet(a.Keys, b.Keys);
  }

  // ---------------------------------------------------------------- in terms of commits

  predicate Creates(h: seq<Version>, v: nat) {
    0 < v < |h| && |h[v - 1].table| < |h[v].table|
  }

  /** Version `v` was committed too late for a collection: after its fourth statement, or after its first if
      it created a complaint. */
  predicate Overtakes(h: seq<Version>, saw: seq<nat>, v: nat) {
    && |saw| == QUERIES && 0 < v < |h|
    && (saw[BY_STATUS] < v || (saw[COUNT] < v && Creates(h, v)))
  }

  /** Every commit changes the table for good. */
  lemma CommitsShow(s: Sys, i: nat, j: nat)
    requires HistoryOk(s) && OwnCommitsOnly(s.history) && i < j < |s.history|
    ensures s.history[i].table != s.history[j].table
  {
    var a, b, c := s.history[i].table, s.history[i + 1].table, s.history[j].table;
    VersionsClimb(s, i + 1, j);
    StepShows(a, b) by { assert !s.history[i + 1].foreign; }
  }

  lemma StepShows(a: Table, b: Table)
    requires LegalStep(a, b)
    ensures !Climbed(b, a)
  {
    if id :| id in b && id !in a {
    } else {
      var id :| id in a && id in b && CanTransition(a[id].status, b[id].status)
        && b == a[id := a[id].(status := b[id].status)];
      assert Stage(a[id].status) < Stage(b[id].status);
    }
  }

  /** A table has grown exactly when one of the commits since created a complaint. */
  lemma {:induction false} GrownByCreation(s: Sys, i: nat, j: nat)
    requires HistoryOk(s) && OwnCommitsOnly(s.history) && i <= j < |s.history|
    ensures |s.history[i].table| < |s.history[j].table| <==>
      exists v :: i < v <= j && Creates(s.history, v)
    decreases j - i
  {
    hide HistoryOk, OwnCommitsOnly;
    if i < j {
      var h := s.history;
      GrownByCreation(s, i, j - 1);
      TablesGrow(s, i, j - 1);
      TablesGrow(s, j - 1, j);
      if |h[i].table| < |h[j - 1].table| {
        var v :| i < v <= j - 1 && Creates(h, v);
        assert i < v <= j;
      } else if Creates(h, j) {
        assert i < j <= j;
      }
    }
  }

  /** Through every run, whatever deletions are lost: a live entry has the figures of the table exactly when
      no commit overtook the collection it came from. */
  lemma LiveEntryExactIff(origin: Sys, run: seq<Event>)
    requires Initial(origin) && OwnCommitsOnly(After(origin, run).history)
    requires Live(After(origin, run).redis, STATS_KEY) && Lookup(After(origin, run).redis, STATS_KEY).Found?
    ensures var s := After(origin, run);
      Held(s).stats == StatsOf(Current(s)) <==> forall v :: !Overtakes(s.history, Held(s).saw, v)
  {
    RunKeepsInv(origin, run);
    var s := After(origin, run);
    CollectedExactIff(s, Held(s).saw);
  }

  lemma CollectedExactIff(s: Sys, saw: seq<nat>)
    requires HistoryOk(s) && OwnCommitsOnly(s.history)
    requires |saw| == QUERIES && Rising(saw) && forall k | 0 <= k < |saw| :: saw[k] < |s.history|
    ensures Assemble(Seen(s.history, saw)) == StatsOf(Current(s)) <==> forall v :: !Overtakes(s.history, saw, v)
  {
    hide HistoryOk, OwnCommitsOnly, Assemble, StatsOf, Climbed;
    var h, seen, last := s.history, Seen(s.history, saw), Last(s);
    forall i, j | 0 <= i <= j < QUERIES ensures Climbed(seen[i], seen[j]) {
      VersionsClimb(s, saw[i], saw[j]);
    }
    forall i | 0 <= i < QUERIES ensures Climbed(seen[i], Current(s)) {
      VersionsClimb(s, saw[i], last);
    }
    AssembledExactIff(seen, Current(s));
    assert seen[COUNT] == h[saw[COUNT]].table && seen[BY_STATUS] == h[saw[BY_STATUS]].table;
    GrownByCreation(s, saw[COUNT], last);
    TablesGrow(s, saw[COUNT], last);
    if saw[BY_STATUS] < last {
      CommitsShow(s, saw[BY_STATUS], last);
      assert Overtakes(h, saw, last);
    } else if |seen[COUNT]| < |Current(s)| {
      var v :| saw[COUNT] < v <= last && Creates(h, v);
      assert Overtakes(h, saw, v);
    } else {
      forall v ensures !Overtakes(h, saw, v) {
        if saw[COUNT] < v <= last { assert !Creates(h, v); }
      }
    }
  }

  /** With every writer done and no deletion missed: the entry is wrong exactly when some writer overtook the
      collection it came from and yet had deleted the key before the entry was stored. */
  lemma QuiescentEntryExact(origin: Sys, run: seq<Event>)
    requires Initial(origin)
    requires var s := After(origin, run);
      Live(s.redis, STATS_KEY) && s.missed == {} && Lookup(s.redis, STATS_KEY).Found?
      && forall v | 0 < v < |s.history| :: !Pending(s, v)
    ensures var s := After(origin, run);
      Held(s).stats != StatsOf(Current(s)) <==>
        exists v :: v in Held(s).cleared && Overtakes(s.history, Held(s).saw, v)
  {
    hide StatsOf, Assemble, Seen, LegalStep, LocksOk, ReadersOk, Creates;
    RunKeepsInv(origin, run);
    LiveEntryExactIff(origin, run);
  }
}
