/** The repository, statistics and complaint services' own code, run against an adversarial environment:
    before each statement other requests, other clients and the clock do whatever they like. Each statement
    is checked against the step of the concurrent system it claims to be, so everything proved of runs
    holds of the code. */
module Services {
  import opened Domain
  import opened Contract
  import opened Aggregates
  import opened Cache
  import opened Paging
  import opened Store
  import opened StoreInvariant
  import opened StoreTheorems

  /** PostgreSQL: the committed states of the table, the last being current, and the row locks. */
  class Database {
    var versions: seq<Version>
    var locks: map<Id, Pid>

    constructor (table: Table)
      ensures versions == [Version(table, 0, false)] && locks == map[]
    {
      versions := [Version(table, 0, false)];
      locks := map[];
    }
  }

  /** The request an event belongs to. */
  function Actor(e: Event): Option<Pid> {
    match e
    case Tick(_) => None
    case Foreign(_) => None
    case Probe(p, _) => Some(p)
    case Query(p) => Some(p)
    case Fill(p, _) => Some(p)
    case Insert(p, _, _) => Some(p)
    case Lock(p, _, _) => Some(p)
    case Refuse(p) => Some(p)
    case Flush(p) => Some(p)
    case Commit(p) => Some(p)
    case Invalidate(p, _) => Some(p)
    case Abort(p) => Some(p)
  }

  lemma Frame(s: Sys, e: Event, p: Pid)
    requires Enabled(s, e) && Actor(e) != Some(p)
    ensures Of(Apply(s, e), p) == Of(s, p)
  {
  }

  /** Event `e` is among those by which the run has grown. */
  ghost predicate Did(before: seq<Event>, after: seq<Event>, e: Event) {
    before <= after && exists k :: |before| <= k < |after| && after[k] == e
  }

  lemma StartIsLegal(s: Sys)
    ensures Legal(s, []) && After(s, []) == s
  {
  }

  /** The servers, and the position every request has reached. */
  class Backend {
    const cache: JsonCache<Tagged>
    const db: Database
    const ttl: int
    /** The system as a whole: its Redis is `cache.redis`, its table and locks are those of `db`. */
    var sys: Sys
    ghost const origin: Sys
    ghost var run: seq<Event>

    ghost predicate Valid()
      reads this, cache, db
    {
      && Started()
      && sys.redis == cache.redis && sys.history == db.versions && sys.locks == db.locks
    }

    ghost predicate Started()
      reads this
    {
      Initial(origin) && Legal(origin, run) && After(origin, run) == sys && sys.ttl == ttl
    }

    constructor (table: Table, ttl: int)
      ensures Valid() && fresh(cache) && fresh(db) && this.ttl == ttl && db.versions == [Version(table, 0, false)]
      ensures sys.procs == map[]
    {
      hide Legal, After;
      var redis := Redis(0, map[], map[], map[]);
      var s := Sys(ttl, redis, [Version(table, 0, false)], map[], map[], {}, {});
      cache := new JsonCache<Tagged>(redis);
      db := new Database(table);
      this.ttl := ttl;
      sys, origin, run := s, s, [];
      StartIsLegal(s);
    }

    /** Books a statement that the caller has just carried out: it must have had exactly the effect of the
        step it is booked as. */
    method Record(e: Event)
      requires Started() && Enabled(sys, e)
      requires cache.redis == Apply(sys, e).redis
      requires db.versions == Apply(sys, e).history && db.locks == Apply(sys, e).locks
      modifies this
      ensures Valid() && sys == Apply(old(sys), e) && run == old(run) + [e]
    {
      hide Apply;
      assert (run + [e])[..|run + [e]| - 1] == run;
      HistoryGrows(sys, e);
      sys := Apply(sys, e);
      run := run + [e];
    }

    /** What other requests, other clients and the clock do before request `p`'s next statement. */
    method Others(p: Pid, script: seq<Event>)
      requires Valid()
      modifies this, cache, db
      ensures Valid() && old(run) <= run && Of(sys, p) == old(Of(sys, p)) && old(sys).history <= sys.history
    {
      hide Apply, Started, Of;
      for i := 0 to |script|
        invariant Valid() && old(run) <= run && Of(sys, p) == old(Of(sys, p)) && old(sys).history <= sys.history
      {
        var e := script[i];
        if Actor(e) != Some(p) && Enabled(sys, e) {
          Frame(sys, e, p);
          HistoryGrows(sys, e);
          var next := Apply(sys, e);
          cache.redis := next.redis;
          db.versions := next.history;
          db.locks := next.locks;
          Record(e);
        }
      }
    }

    /** Every state the code can be in satisfies the invariant. */
    lemma Sound()
      requires Valid()
      ensures Inv(sys)
    {
      RunKeepsInv(origin, run);
    }

    /** Request `p` has reached `q`. */
    ghost predicate At(p: Pid, q: Proc)
      reads this, cache, db
    {
      Valid() && Of(sys, p) == q
    }
  }

  /** The environment's choices during one request: what others do before its k-th statement, whether its
      k-th Redis operation gets through, and for how many rounds it waits for a row lock. */
  datatype Environment = Environment(others: nat -> seq<Event>, up: nat -> bool, patience: nat)

  /** The uncommitted change of a session. */
  datatype Uncommitted = Nothing | New(id: Id, row: Complaint) | Change(id: Id, target: Status)

  /** What the five statements of `aggregates` return. */
  datatype Grouped = Grouped(
    total: nat,
    byCategory: map<Category, nat>,
    byPriority: map<Priority, nat>,
    byStatus: map<Status, nat>,
    byTriagedBy: map<string, nat>,
    avgLatency: Option<real>)

  function GroupedOf(seen: seq<Table>): Grouped
    requires |seen| == QUERIES
  {
    Grouped(|seen[0]|, CountBy(seen[1], CategoryOf), CountBy(seen[2], PriorityOf), CountBy(seen[3], StatusOf),
            CountBy(seen[4], ProviderOf), AvgLatency(seen[0]))
  }

  lemma SeenIs(h: seq<Version>, saw: seq<nat>, tables: seq<Table>)
    requires |saw| == |tables| && forall k | 0 <= k < |saw| :: saw[k] < |h| && h[saw[k]].table == tables[k]
    ensures Seen(h, saw) == tables
  {
  }

  datatype Listed = Listed(id: Id, row: Complaint)

  /** WHERE with all of these conditions. */
  function Where(t: Table, conditions: seq<Complaint -> bool>): set<Id> {
    set id | id in t && All(conditions, t[id])
  }

  predicate All(conditions: seq<Complaint -> bool>, c: Complaint) {
    forall i | 0 <= i < |conditions| :: conditions[i](c)
  }

  lemma AllOfOneMore(conditions: seq<Complaint -> bool>, one: Complaint -> bool)
    ensures forall c :: All(conditions + [one], c) <==> All(conditions, c) && one(c)
  {
    forall c ensures All(conditions + [one], c) <==> All(conditions, c) && one(c) {
      var more := conditions + [one];
      if All(more, c) {
        assert more[|conditions|](c);
        assert forall i | 0 <= i < |conditions| :: conditions[i] == more[i];
      }
    }
  }

  function RowsOf(t: Table, ids: seq<Id>): seq<Listed>
    requires forall id | id in ids :: id in t
  {
    seq(|ids|, i requires 0 <= i < |ids| => Listed(ids[i], t[ids[i]]))
  }

  /** A filter on a column: none, or the value it must have. */
  predicate Wanted<T(==)>(asked: Option<T>, value: T) {
    asked.None? || asked.value == value
  }

  lemma SelectIsWanted(t: Table, f: Filters)
    ensures Select(t, f) == set id | id in t && Wanted(f.category, t[id].category)
      && Wanted(f.priority, t[id].priority) && Wanted(f.status, t[id].status)
  {
  }

  lemma PageIsWanted(t: Table, f: Filters, page: nat, size: nat)
    requires page >= 1
    ensures var ids := Page(Listing(t, f), page, size);
      && |ids| <= size
      && (forall i | 0 <= i < |ids| ::
            && ids[i] in t && Wanted(f.category, t[ids[i]].category) && Wanted(f.priority, t[ids[i]].priority)
            && Wanted(f.status, t[ids[i]].status))
      && (forall i, j | 0 <= i < j < |ids| ::
            && ids[i] in t && ids[j] in t
            && (t[ids[i]].createdAt > t[ids[j]].createdAt
                || (t[ids[i]].createdAt == t[ids[j]].createdAt && ids[i] < ids[j])))
  {
    hide Sorted;
    SortedLists(t, Select(t, f));
    var ids := Page(Listing(t, f), page, size);
    forall i | 0 <= i < |ids| ensures ids[i] in Select(t, f) {
      assert ids[i] in Listing(t, f);
    }
  }

  lemma PageIsChosen(t: Table, f: Filters, page: nat, size: nat)
    requires page >= 1
    ensures forall id | id in Page(Listing(t, f), page, size) :: id in t
  {
    SortedLists(t, Select(t, f));
  }

  /** The outcome of SELECT ... FOR UPDATE. */
  datatype Locking = Granted(row: Complaint) | NoRow | TimedOut

  /** One request's session. */
  class ComplaintRepository {
    const backend: Backend
    const p: Pid
    var session: Uncommitted

    constructor (backend: Backend, p: Pid)
      ensures this.backend == backend && this.p == p && session == Nothing
    {
      this.backend := backend;
      this.p := p;
      session := Nothing;
    }

    method Aggregates(env: Environment, began: nat, floor: nat) returns (g: Grouped, saw: seq<nat>)
      requires backend.At(p, Reading(began, floor, []))
      modifies backend, backend.cache, backend.db
      ensures |saw| == QUERIES && backend.At(p, Reading(began, floor, saw))
      ensures g == GroupedOf(Seen(backend.sys.history, saw))
      ensures old(backend.run) < backend.run
    {
      hide backend.At, CountBy, Seen, Legal, After, AvgLatency;
      var t0, v0 := Statement(env, 0, began, floor, []);
      var t1, v1 := Statement(env, 1, began, floor, [] + [v0]);
      var t2, v2 := Statement(env, 2, began, floor, [] + [v0] + [v1]);
      var t3, v3 := Statement(env, 3, began, floor, [] + [v0] + [v1] + [v2]);
      var t4, v4 := Statement(env, 4, began, floor, [] + [v0] + [v1] + [v2] + [v3]);
      saw := [] + [v0] + [v1] + [v2] + [v3] + [v4];
      SeenIs(backend.sys.history, saw, [t0, t1, t2, t3, t4]);
      g := Grouped(|t0|, CountBy(t1, CategoryOf), CountBy(t2, PriorityOf), CountBy(t3, StatusOf),
                   CountBy(t4, ProviderOf), AvgLatency(t0));
    }

    /** One SELECT: it sees the table as committed when it runs. */
    method Statement(env: Environment, k: nat, began: nat, floor: nat, saw: seq<nat>) returns (t: Table, v: nat)
      requires |saw| == k < QUERIES && backend.At(p, Reading(began, floor, saw))
      modifies backend, backend.cache, backend.db
      ensures backend.At(p, Reading(began, floor, saw + [v]))
      ensures v < |backend.sys.history| && backend.sys.history[v].table == t
      ensures old(backend.sys).history <= backend.sys.history && old(backend.run) < backend.run
    {
      backend.Others(p, env.others(k));
      backend.Sound();
      v := |backend.db.versions| - 1;
      t := backend.db.versions[v].table;
      backend.Record(Query(p));
    }

    /** `page` of the listing and the total, by two statements that may see different tables. */
    method List(filters: Filters, page: nat, size: nat, env: Environment)
      returns (rows: seq<Listed>, total: nat, fetch: Fetch)
      requires page >= 1 && backend.At(p, Idle)
      modifies backend, backend.cache, backend.db
      ensures backend.At(p, Idle) && old(backend.sys).history <= backend.sys.history
      ensures var h := backend.sys.history;
        && |old(backend.sys).history| - 1 <= fetch.counted <= fetch.selected < |h|
        && total == |ChosenAt(h, fetch.counted, filters)|
        && var t := h[fetch.selected].table;
        && (forall id | id in Page(Listing(t, filters), page, size) :: id in t)
        && rows == RowsOf(t, Page(Listing(t, filters), page, size))
      ensures var t := backend.sys.history[fetch.counted].table;
        total == |set id | id in t && Wanted(filters.category, t[id].category)
                    && Wanted(filters.priority, t[id].priority) && Wanted(filters.status, t[id].status)|
      ensures forall i | 0 <= i < |rows| ::
        && rows[i].id in backend.sys.history[fetch.selected].table
        && rows[i].row == backend.sys.history[fetch.selected].table[rows[i].id]
        && Wanted(filters.category, rows[i].row.category) && Wanted(filters.priority, rows[i].row.priority)
        && Wanted(filters.status, rows[i].row.status)
      ensures forall i, j | 0 <= i < j < |rows| ::
        || rows[i].row.createdAt > rows[j].row.createdAt
        || (rows[i].row.createdAt == rows[j].row.createdAt && rows[i].id < rows[j].id)
      ensures |rows| <= size
    {
      hide Page, Sorted, Inv;
      var conditions := Conditions(filters);
      backend.Others(p, env.others(0));
      HistoryStarted();
      var v := |backend.db.versions| - 1;
      total := |Where(backend.db.versions[v].table, conditions)|;
      assert Where(backend.db.versions[v].table, conditions) == ChosenAt(backend.db.versions, v, filters);
      backend.Others(p, env.others(1));
      var w := |backend.db.versions| - 1;
      var t := backend.db.versions[w].table;
      assert Where(t, conditions) == Select(t, filters);
      var listing := Sorted(t, Where(t, conditions));
      assert listing == Listing(t, filters);
      PageIsChosen(t, filters, page, size);
      rows := RowsOf(t, Page(listing, page, size));
      fetch := Fetch(v, w);
      SelectIsWanted(backend.db.versions[v].table, filters);
      PageIsWanted(t, filters, page, size);
    }

    method Conditions(f: Filters) returns (conditions: seq<Complaint -> bool>)
      ensures forall c :: All(conditions, c) <==> Fits(f, c)
    {
      conditions := [];
      if f.category.Some? {
        var one := (c: Complaint) => c.category == f.category.value;
        AllOfOneMore(conditions, one);
        conditions := conditions + [one];
      }
      if f.priority.Some? {
        var one := (c: Complaint) => c.priority == f.priority.value;
        AllOfOneMore(conditions, one);
        conditions := conditions + [one];
      }
      if f.status.Some? {
        var one := (c: Complaint) => c.status == f.status.value;
        AllOfOneMore(conditions, one);
        conditions := conditions + [one];
      }
    }

    lemma HistoryStarted()
      requires backend.Valid()
      ensures backend.sys.history != []
    {
      backend.Sound();
    }

    method Add(id: Id, row: Complaint, env: Environment)
      requires backend.At(p, Idle) && row.status == Open
      modifies this`session, backend, backend.cache, backend.db
      ensures backend.At(p, Inserted(id, row)) && session == New(id, row)
      ensures old(backend.sys).history <= backend.sys.history
    {
      backend.Others(p, env.others(0));
      session := New(id, row);
      backend.Record(Insert(p, id, row));
    }

    /** SELECT ... FOR UPDATE: waits while another request holds the row, then reads and holds it. */
    method GetForUpdate(id: Id, target: Status, env: Environment) returns (l: Locking)
      requires backend.At(p, Idle)
      modifies backend, backend.cache, backend.db
      ensures old(backend.sys).history <= backend.sys.history
      ensures l.Granted? ==> backend.At(p, Locked(id, l.row, target))
      ensures l.Granted? ==> id in Current(backend.sys) && Current(backend.sys)[id] == l.row
      ensures l.NoRow? ==> backend.At(p, Idle) && id !in Current(backend.sys)
      ensures l.TimedOut? ==> backend.At(p, Idle) && id in backend.sys.locks
    {
      hide LegalStep, ReadersOk, EntryOk, LocksOk, DeletesOk, Legal, After, Initial;
      var waited := 0;
      backend.Others(p, env.others(0));
      while id in backend.db.locks && waited < env.patience
        invariant backend.At(p, Idle) && old(backend.sys).history <= backend.sys.history
      {
        waited := waited + 1;
        backend.Others(p, env.others(waited));
      }
      if id in backend.db.locks {
        return TimedOut;
      }
      backend.Sound();
      var table := backend.db.versions[|backend.db.versions| - 1].table;
      if id !in table {
        return NoRow;
      }
      backend.db.locks := backend.db.locks[id := p];
      backend.Record(Lock(p, id, target));
      return Granted(table[id]);
    }

    method SetStatus(id: Id, row: Complaint, target: Status, env: Environment)
      requires backend.At(p, Locked(id, row, target)) && CanTransition(row.status, target)
      modifies this`session, backend, backend.cache, backend.db
      ensures backend.At(p, Flushed(id, row, target)) && session == Change(id, target)
      ensures old(backend.sys).history <= backend.sys.history
    {
      backend.Others(p, env.others(1));
      session := Change(id, target);
      backend.Record(Flush(p));
    }

    method Rollback(id: Id, row: Complaint, target: Status, env: Environment)
      requires backend.At(p, Locked(id, row, target)) && !CanTransition(row.status, target)
      modifies this`session, backend, backend.cache, backend.db
      ensures backend.At(p, Refused(row.status, target)) && session == Nothing
      ensures old(backend.sys).history <= backend.sys.history
    {
      backend.Others(p, env.others(1));
      session := Nothing;
      backend.db.locks := backend.db.locks - {id};
      backend.Record(Refuse(p));
    }

    /** COMMIT of an insertion; fails if the key has been taken meanwhile. */
    method CommitNew(env: Environment) returns (ok: bool)
      requires session.New? && backend.At(p, Inserted(session.id, session.row))
      modifies this`session, backend, backend.cache, backend.db
      ensures session == Nothing && old(backend.sys).history <= backend.sys.history
      ensures ok ==> Appended(old(session.id), old(session.row)) && |old(backend.sys).history| < |backend.sys.history|
      ensures !ok ==> backend.At(p, Dead) && old(session.id) in Current(backend.sys)
    {
      hide LegalStep, ReadersOk, EntryOk, LocksOk, DeletesOk, Legal, After, Initial;
      backend.Others(p, env.others(2));
      backend.Sound();
      var table := backend.db.versions[|backend.db.versions| - 1].table;
      var id, row := session.id, session.row;
      session := Nothing;
      if id in table {
        backend.Record(Abort(p));
        return false;
      }
      backend.db.versions := backend.db.versions + [Version(table[id := row], backend.cache.redis.now, false)];
      backend.Record(Commit(p));
      return true;
    }

    /** The last version is this request's insertion of `row`. */
    ghost predicate Appended(id: Id, row: Complaint)
      reads this, backend, backend.cache, backend.db
    {
      var h := backend.sys.history;
      && |h| >= 2 && id !in h[|h| - 2].table && h[|h| - 1].table == h[|h| - 2].table[id := row]
      && backend.At(p, Committed(|h| - 1))
    }

    /** COMMIT of a status change: the row is still as it was read when it was locked. */
    method CommitChange(ghost row: Complaint, env: Environment)
      requires session.Change? && backend.At(p, Flushed(session.id, row, session.target))
      modifies this`session, backend, backend.cache, backend.db
      ensures session == Nothing && old(backend.sys).history <= backend.sys.history
      ensures |old(backend.sys).history| < |backend.sys.history|
      ensures var h := backend.sys.history;
        && Moves(h, old(session.id), |h| - 1, old(session.target))
        && h[|h| - 2].table[old(session.id)] == row
        && h[|h| - 1].table == h[|h| - 2].table[old(session.id) := row.(status := old(session.target))]
        && backend.At(p, Committed(|h| - 1))
    {
      hide LegalStep, ReadersOk, EntryOk, DeletesOk, Legal, After, Initial;
      backend.Others(p, env.others(2));
      backend.Sound();
      LockHolderSeesCurrent(backend.sys, p);
      var table := backend.db.versions[|backend.db.versions| - 1].table;
      var id, target := session.id, session.target;
      session := Nothing;
      backend.db.versions := backend.db.versions
        + [Version(table[id := table[id].(status := target)], backend.cache.redis.now, false)];
      backend.db.locks := backend.db.locks - {id};
      backend.Record(Commit(p));
      TransitionsMove(row.status, target);
    }
  }

  lemma TransitionsMove(current: Status, target: Status)
    ensures CanTransition(current, target) ==> current != target
  {
  }

  /** What the row lock buys: at commit the holder's row is still as it was read. */
  lemma LockHolderSeesCurrent(s: Sys, p: Pid)
    requires Inv(s) && Of(s, p).Flushed?
    ensures var q := Of(s, p);
      q.id in s.locks && s.locks[q.id] == p && q.id in Current(s) && Current(s)[q.id] == q.row
      && CanTransition(q.row.status, q.target)
  {
  }
}
