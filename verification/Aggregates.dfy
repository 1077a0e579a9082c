/** Complaint rows, and the grouped counts the statistics are made of. */
module Aggregates {
  import opened Domain
  import opened Contract

  type Id = nat

  datatype Complaint = Complaint(
    text: string,
    location: string,
    contact: Option<string>,
    category: Category,
    priority: Priority,
    status: Status,
    summary: string,
    triagedBy: string,
    latencyMs: nat,
    createdAt: nat)

  /** The committed rows, by primary key. */
  type Table = map<Id, Complaint>

  // The columns that are counted.
  function CategoryOf(c: Complaint): Category { c.category }
  function PriorityOf(c: Complaint): Priority { c.priority }
  function StatusOf(c: Complaint): Status { c.status }
  function ProviderOf(c: Complaint): string { c.triagedBy }

  function Matching<K(==)>(t: Table, f: Complaint -> K, k: K): set<Id> {
    set id | id in t && f(t[id]) == k
  }

  /** `select(col, count()).group_by(col)`: groups without a row do not appear. */
  function CountBy<K(==,!new)>(t: Table, f: Complaint -> K): (groups: map<K, nat>)
    ensures forall k :: k in groups <==> Matching(t, f, k) != {}
    ensures forall k | k in groups :: groups[k] == |Matching(t, f, k)|
  {
    var keys := set id | id in t :: f(t[id]);
    assert forall k :: k in keys ==> exists id :: id in t && f(t[id]) == k;
    assert forall id | id in t :: id in Matching(t, f, f(t[id]));
    map k | k in keys :: |Matching(t, f, k)|
  }

  ghost function Sum<K>(m: map<K, nat>): nat {
    if m == map[] then 0
    else
      var k :| k in m;
      m[k] + Sum(m - {k})
  }

  lemma {:induction false} SumOf<K>(m: map<K, nat>, k: K)
    requires k in m
    ensures Sum(m) == m[k] + Sum(m - {k})
  {
    var j :| j in m && Sum(m) == m[j] + Sum(m - {j});
    if j != k {
      SumOf(m - {j}, k);
      SumOf(m - {k}, j);
      assert m - {j} - {k} == m - {k} - {j};
    }
  }

  /** A group's count as a total function. */
  function At<K(==)>(groups: map<K, nat>, k: K): nat {
    if k in groups then groups[k] else 0
  }

  lemma SumChange<K>(m: map<K, nat>, m': map<K, nat>, k: K)
    requires m - {k} == m' - {k}
    ensures Sum(m) + At(m', k) == Sum(m') + At(m, k)
  {
    SumWithout(m, k);
    SumWithout(m', k);
  }

  lemma SumWithout<K>(m: map<K, nat>, k: K)
    ensures Sum(m) == At(m, k) + Sum(m - {k})
  {
    if k in m { SumOf(m, k); } else { assert m - {k} == m; }
  }

  /** Adding one row adds one to its own group and leaves every other group as it was. */
  lemma CountOneMore<K(!new)>(t: Table, id: Id, row: Complaint, f: Complaint -> K)
    requires id !in t
    ensures var g, g', k := CountBy(t, f), CountBy(t[id := row], f), f(row);
      At(g', k) == At(g, k) + 1 && g' - {k} == g - {k}
  {
    var t', k := t[id := row], f(row);
    assert Matching(t', f, k) == Matching(t, f, k) + {id};
    forall j | j != k ensures Matching(t', f, j) == Matching(t, f, j) {
    }
  }

  /** Whatever the column, the groups share out the rows: their counts add up to the size of the table. */
  lemma {:induction false} GroupsPartition<K(!new)>(t: Table, f: Complaint -> K)
    ensures Sum(CountBy(t, f)) == |t|
  {
    if t == map[] {
      assert CountBy(t, f) == map[];
    } else {
      var id :| id in t;
      var rest := t - {id};
      GroupsPartition(rest, f);
      assert t == rest[id := t[id]];
      CountOneMore(rest, id, t[id], f);
      SumChange(CountBy(rest, f), CountBy(t, f), f(t[id]));
    }
  }

  /** `{k: groups.get(k, 0) for k in keys}`. */
  function ZeroFill<K(==)>(groups: map<K, nat>, keys: set<K>): (filled: map<K, nat>)
    ensures filled.Keys == keys
  {
    map k | k in keys :: At(groups, k)
  }

  /** Zero-filling over all the values a column can take changes no sum. */
  lemma {:induction false} ZeroFillKeepsSum<K>(groups: map<K, nat>, keys: set<K>)
    requires groups.Keys <= keys
    ensures Sum(ZeroFill(groups, keys)) == Sum(groups)
  {
    if keys != {} {
      var k :| k in keys;
      ZeroFillKeepsSum(groups - {k}, keys - {k});
      assert ZeroFill(groups, keys) - {k} == ZeroFill(groups - {k}, keys - {k});
      SumWithout(groups, k);
      SumWithout(ZeroFill(groups, keys), k);
    } else {
      assert groups == map[] && ZeroFill(groups, keys) == map[];
    }
  }

  // ---------------------------------------------------------------- the average

  lemma {:induction false} SomeoneIsLeast(ids: set<Id>)
    requires ids != {}
    ensures exists id :: IsLeast(ids, id)
  {
    var one :| one in ids;
    if ids == {one} {
      assert IsLeast(ids, one);
    } else {
      SomeoneIsLeast(ids - {one});
      var best :| IsLeast(ids - {one}, best);
      var least := if one < best then one else best;
      forall other | other in ids ensures least <= other {
        assert other == one || other in ids - {one};
      }
      assert IsLeast(ids, least);
    }
  }

  predicate IsLeast(ids: set<Id>, id: Id) {
    id in ids && forall other | other in ids :: id <= other
  }

  function TotalLatency(t: Table): nat {
    if t == map[] then 0
    else
      assert t.Keys != {};
      SomeoneIsLeast(t.Keys);
      var id :| IsLeast(t.Keys, id);
      t[id].latencyMs + TotalLatency(t - {id})
  }

  /** `avg(triage_latency_ms)`, exactly. */
  function AvgLatency(t: Table): Option<real> {
    if |t| == 0 then None else Some(TotalLatency(t) as real / |t| as real)
  }

  /** The rows can be added up in any order. */
  lemma {:induction false} TotalOf(t: Table, id: Id)
    requires id in t
    ensures TotalLatency(t) == t[id].latencyMs + TotalLatency(t - {id})
    decreases |t|
  {
    SomeoneIsLeast(t.Keys);
    var first :| IsLeast(t.Keys, first);
    if id != first {
      TotalOf(t - {first}, id);
      TotalOf(t - {id}, first);
      assert t - {first} - {id} == t - {id} - {first};
    }
  }

  lemma {:induction false} SameLatencies(a: Table, b: Table)
    requires a.Keys == b.Keys && forall id | id in a :: a[id].latencyMs == b[id].latencyMs
    ensures TotalLatency(a) == TotalLatency(b) && AvgLatency(a) == AvgLatency(b)
    decreases |a|
  {
    assert |a| == |a.Keys| == |b.Keys| == |b|;
    if a == map[] {
      assert b == map[];
    } else {
      var id :| id in a;
      SameLatencies(a - {id}, b - {id});
      TotalOf(a, id);
      TotalOf(b, id);
    }
  }

  /** A new row moves the average by its own latency and no more. */
  lemma LatencyOneMore(t: Table, id: Id, row: Complaint)
    requires id !in t
    ensures var t' := t[id := row];
      && |t'| == |t| + 1
      && AvgLatency(t').Some? && (AvgLatency(t).None? <==> |t| == 0)
      && AvgLatency(t').value * |t'| as real
         == (if |t| == 0 then 0.0 else AvgLatency(t).value * |t| as real) + row.latencyMs as real
  {
    hide TotalLatency, AvgLatency;
    var t' := t[id := row];
    assert t' - {id} == t && |t'| == |t| + 1;
    TotalOf(t', id);
    AvgTimesCount(t);
    AvgTimesCount(t');
  }

  lemma AvgTimesCount(t: Table)
    ensures AvgLatency(t).None? <==> |t| == 0
    ensures |t| > 0 ==> AvgLatency(t).value * |t| as real == TotalLatency(t) as real
    ensures |t| == 0 ==> TotalLatency(t) == 0
  {
    if |t| > 0 {
      Divided(TotalLatency(t) as real, |t| as real);
    } else {
      assert t == map[];
    }
  }

  lemma Divided(x: real, y: real)
    requires y > 0.0
    ensures x / y * y == x
  {
  }

  const ALL_CATEGORIES := set c: Category | true
  const ALL_PRIORITIES := set p: Priority | true
  const ALL_STATUSES := set s: Status | true

  /** The counts a client of the statistics receives. */
  datatype Stats = Stats(
    total: nat,
    byCategory: map<Category, nat>,
    byPriority: map<Priority, nat>,
    byStatus: map<Status, nat>,
    byTriagedBy: map<string, nat>,
    avgLatency: Option<real>)

  const QUERIES := 5

  /** The statistics computed from what the five statements of `aggregates` saw, one table each. */
  function Assemble(seen: seq<Table>): Stats
    requires |seen| == QUERIES
  {
    Stats(
      |seen[0]|,
      ZeroFill(CountBy(seen[1], CategoryOf), ALL_CATEGORIES),
      ZeroFill(CountBy(seen[2], PriorityOf), ALL_PRIORITIES),
      ZeroFill(CountBy(seen[3], StatusOf), ALL_STATUSES),
      CountBy(seen[4], ProviderOf),
      AvgLatency(seen[0]))
  }

  /** The statistics of a single table. */
  function StatsOf(t: Table): Stats {
    Assemble([t, t, t, t, t])
  }

  /** Each breakdown of assembled statistics adds up to the size of the table its statement saw, and the average
      times the total is the sum of the latencies. */
  lemma BreakdownsAddUp(seen: seq<Table>)
    requires |seen| == QUERIES
    ensures var s := Assemble(seen);
      && s.total == |seen[0]|
      && Sum(s.byCategory) == |seen[1]|
      && Sum(s.byPriority) == |seen[2]|
      && Sum(s.byStatus) == |seen[3]|
      && Sum(s.byTriagedBy) == |seen[4]|
      && (s.avgLatency.None? <==> s.total == 0)
      && (s.total > 0 ==> s.avgLatency.value * s.total as real == TotalLatency(seen[0]) as real)
  {
    hide CountBy, ZeroFill, Sum, TotalLatency, AvgLatency;
    AvgTimesCount(seen[0]);
    GroupsPartition(seen[1], CategoryOf);
    GroupsPartition(seen[2], PriorityOf);
    GroupsPartition(seen[3], StatusOf);
    GroupsPartition(seen[4], ProviderOf);
    ZeroFillKeepsSum(CountBy(seen[1], CategoryOf), ALL_CATEGORIES);
    ZeroFillKeepsSum(CountBy(seen[2], PriorityOf), ALL_PRIORITIES);
    ZeroFillKeepsSum(CountBy(seen[3], StatusOf), ALL_STATUSES);
  }

  /** Moving a row from one status to another moves exactly one unit between the two buckets and leaves
      everything else a client sees as it was. */
  lemma StatusChangeMovesOneUnit(t: Table, id: Id, target: Status)
    requires id in t && t[id].status != target
    ensures var s, s', was := StatsOf(t), StatsOf(t[id := t[id].(status := target)]), t[id].status;
      && At(s'.byStatus, was) + 1 == At(s.byStatus, was)
      && At(s'.byStatus, target) == At(s.byStatus, target) + 1
      && (forall k | k != was && k != target :: At(s'.byStatus, k) == At(s.byStatus, k))
      && s'.(byStatus := s.byStatus) == s
  {
    hide CountBy, ZeroFill, At, TotalLatency, AvgLatency;
    SameLatencies(t, t[id := t[id].(status := target)]);
    var row := t[id];
    var row' := row.(status := target);
    var rest := t - {id};
    assert t == rest[id := row] && t[id := row'] == rest[id := row'];
    SameGroup(rest, id, row, row', CategoryOf);
    SameGroup(rest, id, row, row', PriorityOf);
    SameGroup(rest, id, row, row', ProviderOf);
    StatusBuckets(rest, id, row, row');
    assert |t| == |t[id := row']|;
  }

  lemma StatusBuckets(rest: Table, id: Id, row: Complaint, row': Complaint)
    requires id !in rest && row.status != row'.status
    ensures var g := ZeroFill(CountBy(rest[id := row], StatusOf), ALL_STATUSES);
      var g' := ZeroFill(CountBy(rest[id := row'], StatusOf), ALL_STATUSES);
      && At(g', row.status) + 1 == At(g, row.status)
      && At(g', row'.status) == At(g, row'.status) + 1
      && (forall k | k != row.status && k != row'.status :: At(g', k) == At(g, k))
  {
    hide CountBy, ZeroFill, At;
    OneUnitFilled(rest, id, row, StatusOf, ALL_STATUSES);
    OneUnitFilled(rest, id, row', StatusOf, ALL_STATUSES);
    var g0 := ZeroFill(CountBy(rest, StatusOf), ALL_STATUSES);
    var g := ZeroFill(CountBy(rest[id := row], StatusOf), ALL_STATUSES);
    var g' := ZeroFill(CountBy(rest[id := row'], StatusOf), ALL_STATUSES);
    assert At(g, row.status) == At(g0, row.status) + 1;
    assert At(g', row.status) == At(g0, row.status);
    assert At(g, row'.status) == At(g0, row'.status);
    assert At(g', row'.status) == At(g0, row'.status) + 1;
    forall k | k != row.status && k != row'.status ensures At(g', k) == At(g, k) {
      assert At(g', k) == At(g0, k) == At(g, k);
    }
  }

  lemma MovedUnit<K(!new)>(g: map<K, nat>, g': map<K, nat>, k: K)
    requires At(g', k) == At(g, k) + 1 && g' - {k} == g - {k}
    ensures forall j | j != k :: At(g', j) == At(g, j)
  {
    forall j | j != k ensures At(g', j) == At(g, j) {
      assert j in g <==> j in g - {k};
      assert j in g' <==> j in g' - {k};
      if j in g {
        assert g[j] == (g - {k})[j] == g'[j];
      }
    }
  }

  /** Rows that agree on a column count alike. */
  lemma SameGroup<K(!new)>(rest: Table, id: Id, row: Complaint, row': Complaint, f: Complaint -> K)
    requires id !in rest && f(row) == f(row')
    ensures CountBy(rest[id := row], f) == CountBy(rest[id := row'], f)
  {
    CountOneMore(rest, id, row, f);
    CountOneMore(rest, id, row', f);
    var g, g' := CountBy(rest[id := row], f), CountBy(rest[id := row'], f);
    assert g - {f(row)} == g' - {f(row)};
    assert forall k :: k in g <==> k in g - {f(row)} || k == f(row);
    assert forall k :: k in g' <==> k in g' - {f(row)} || k == f(row);
    forall k | k in g ensures g[k] == g'[k] {
      if k != f(row) {
        assert g[k] == (g - {f(row)})[k] == g'[k];
      }
    }
  }

  /** A new complaint adds exactly one unit in every breakdown, in its own group, and its own latency to the sum
      the average stands for. */
  lemma NewComplaintAddsOneUnit(t: Table, id: Id, row: Complaint)
    requires id !in t
    ensures var s, s' := StatsOf(t), StatsOf(t[id := row]);
      && s'.total == s.total + 1
      && s'.avgLatency.Some? && (s.avgLatency.None? <==> s.total == 0)
      && s'.avgLatency.value * s'.total as real
         == (if s.total == 0 then 0.0 else s.avgLatency.value * s.total as real) + row.latencyMs as real
      && (forall k :: At(s'.byCategory, k) == At(s.byCategory, k) + (if k == row.category then 1 else 0))
      && (forall k :: At(s'.byPriority, k) == At(s.byPriority, k) + (if k == row.priority then 1 else 0))
      && (forall k :: At(s'.byStatus, k) == At(s.byStatus, k) + (if k == row.status then 1 else 0))
      && (forall k :: At(s'.byTriagedBy, k) == At(s.byTriagedBy, k) + (if k == row.triagedBy then 1 else 0))
  {
    hide StatsOf, At;
    NewLatency(t, id, row);
    NewUnits(t, id, row);
  }

  lemma NewLatency(t: Table, id: Id, row: Complaint)
    requires id !in t
    ensures var s, s' := StatsOf(t), StatsOf(t[id := row]);
      && s'.total == s.total + 1
      && s'.avgLatency.Some? && (s.avgLatency.None? <==> s.total == 0)
      && s'.avgLatency.value * s'.total as real
         == (if s.total == 0 then 0.0 else s.avgLatency.value * s.total as real) + row.latencyMs as real
  {
    hide CountBy, ZeroFill, TotalLatency, AvgLatency;
    LatencyOneMore(t, id, row);
  }

  lemma NewUnits(t: Table, id: Id, row: Complaint)
    requires id !in t
    ensures var s, s' := StatsOf(t), StatsOf(t[id := row]);
      && (forall k :: At(s'.byCategory, k) == At(s.byCategory, k) + (if k == row.category then 1 else 0))
      && (forall k :: At(s'.byPriority, k) == At(s.byPriority, k) + (if k == row.priority then 1 else 0))
      && (forall k :: At(s'.byStatus, k) == At(s.byStatus, k) + (if k == row.status then 1 else 0))
      && (forall k :: At(s'.byTriagedBy, k) == At(s.byTriagedBy, k) + (if k == row.triagedBy then 1 else 0))
  {
    hide CountBy, ZeroFill, At, AvgLatency;
    OneUnitFilled(t, id, row, CategoryOf, ALL_CATEGORIES);
    OneUnitFilled(t, id, row, PriorityOf, ALL_PRIORITIES);
    OneUnitFilled(t, id, row, StatusOf, ALL_STATUSES);
    OneUnit(t, id, row, ProviderOf);
  }

  lemma OneUnit<K(!new)>(t: Table, id: Id, row: Complaint, f: Complaint -> K)
    requires id !in t
    ensures forall k ::
      At(CountBy(t[id := row], f), k) == At(CountBy(t, f), k) + (if k == f(row) then 1 else 0)
  {
    CountOneMore(t, id, row, f);
    MovedUnit(CountBy(t, f), CountBy(t[id := row], f), f(row));
  }

  lemma OneUnitFilled<K(!new)>(t: Table, id: Id, row: Complaint, f: Complaint -> K, keys: set<K>)
    requires id !in t && forall k :: k in keys
    ensures forall k ::
      At(ZeroFill(CountBy(t[id := row], f), keys), k)
      == At(ZeroFill(CountBy(t, f), keys), k) + (if k == f(row) then 1 else 0)
  {
    OneUnit(t, id, row, f);
  }
}
