/** The complaint store, the status machine and the statistics cache as one concurrent system. Every
    request is a process whose statements are separate steps; the steps of any number of processes
    interleave freely, any Redis operation may be lost, any process may die, and rows may be changed
    behind the service's back. */
module Store {
  import opened Domain
  import opened Contract
  import opened Aggregates
  import opened Cache

  const STATS_KEY := "stats:v1"

  type Pid = nat

  /** One committed state of the table; `foreign` marks a commit not made by this service. */
  datatype Version = Version(table: Table, at: nat, foreign: bool)

  /** The cached statistics, tagged with where they came from: when their reader began (`began`, and
      the version then current, `floor`), which versions its statements saw, when it stored them, and
      the versions whose writers had deleted the key by then. No step looks at the tag. */
  datatype Tagged = Tagged(stats: Stats, began: nat, floor: nat, saw: seq<nat>, stored: nat, cleared: set<nat>)

  /** Where a request is in its statements, and what it came to: `Answered` statistics, a `Finished`
      write, a `Refused` transition, or a `Dead` process. */
  datatype Proc =
    | Idle
    | Reading(began: nat, floor: nat, saw: seq<nat>)
    | Inserted(id: Id, row: Complaint)
    | Locked(id: Id, row: Complaint, target: Status)
    | Flushed(id: Id, row: Complaint, target: Status)
    | Committed(version: nat)
    | Answered(stats: Stats, hit: bool)
    | Finished(version: nat)
    | Refused(current: Status, target: Status)
    | Dead

  predicate Over(q: Proc) {
    q.Answered? || q.Finished? || q.Refused? || q.Dead?
  }

  /** `history` holds every committed state, the last being current. `cleared` and `missed` record the
      versions whose writer has deleted the key, and those whose writer never will. */
  datatype Sys = Sys(
    ttl: int,
    redis: Redis<Tagged>,
    history: seq<Version>,
    locks: map<Id, Pid>,
    procs: map<Pid, Proc>,
    cleared: set<nat>,
    missed: set<nat>)

  datatype Event =
    | Tick(ms: nat)
    | Probe(p: Pid, up: bool)
    | Query(p: Pid)
    | Fill(p: Pid, up: bool)
    | Insert(p: Pid, id: Id, row: Complaint)
    | Lock(p: Pid, id: Id, target: Status)
    | Refuse(p: Pid)
    | Flush(p: Pid)
    | Commit(p: Pid)
    | Invalidate(p: Pid, up: bool)
    | Abort(p: Pid)
    | Foreign(table: Table)

  function Of(s: Sys, p: Pid): Proc {
    if p in s.procs then s.procs[p] else Idle
  }

  function Current(s: Sys): Table {
    if s.history == [] then map[] else s.history[|s.history| - 1].table
  }

  function Last(s: Sys): nat {
    if s.history == [] then 0 else |s.history| - 1
  }

  function Seen(history: seq<Version>, saw: seq<nat>): (tables: seq<Table>)
    ensures |tables| == |saw|
  {
    seq(|saw|, k requires 0 <= k < |saw| =>
      if saw[k] < |history| then history[saw[k]].table else map[])
  }

  predicate Holds(q: Proc, id: Id) {
    (q.Locked? || q.Flushed?) && q.id == id
  }

  /** What PostgreSQL and the service's own control flow let happen next. A row lock is granted only when
      free, a key can be inserted only once, and not even a foreign writer touches a locked row. */
  predicate Enabled(s: Sys, e: Event) {
    match e
    case Tick(_) => true
    case Probe(p, _) => Of(s, p).Idle?
    case Query(p) => Of(s, p).Reading? && |Of(s, p).saw| < QUERIES
    case Fill(p, _) => Of(s, p).Reading? && |Of(s, p).saw| == QUERIES
    case Insert(p, id, row) => Of(s, p).Idle? && row.status == Open
    case Lock(p, id, _) => Of(s, p).Idle? && id in Current(s) && id !in s.locks
    case Refuse(p) => Of(s, p).Locked? && !CanTransition(Of(s, p).row.status, Of(s, p).target)
    case Flush(p) => Of(s, p).Locked? && CanTransition(Of(s, p).row.status, Of(s, p).target)
    case Commit(p) => Of(s, p).Flushed? || (Of(s, p).Inserted? && Of(s, p).id !in Current(s))
    case Invalidate(p, _) => Of(s, p).Committed?
    case Abort(p) => !Of(s, p).Idle? && !Over(Of(s, p))
    case Foreign(t) => forall id | id in s.locks && id in Current(s) :: id in t && t[id] == Current(s)[id]
  }

  function To(s: Sys, p: Pid, q: Proc): Sys {
    s.(procs := s.procs[p := q])
  }

  function Release(s: Sys, q: Proc): Sys {
    if q.Locked? || q.Flushed? then s.(locks := s.locks - {q.id}) else s
  }

  function Append(s: Sys, t: Table, foreign: bool): Sys {
    s.(history := s.history + [Version(t, s.redis.now, foreign)])
  }

  function Tag(s: Sys, q: Proc): Tagged
    requires q.Reading? && |q.saw| == QUERIES
  {
    Tagged(Assemble(Seen(s.history, q.saw)), q.began, q.floor, q.saw, s.redis.now, s.cleared)
  }

  function Apply(s: Sys, e: Event): Sys
    requires Enabled(s, e)
  {
    match e
    case Tick(ms) => s.(redis := s.redis.(now := s.redis.now + ms))
    case Probe(p, up) =>
      var cached := if up then Lookup(s.redis, STATS_KEY) else Missing;
      To(s, p, match cached
               case Missing => Reading(s.redis.now, Last(s), [])
               case Found(t) => Answered(t.stats, true)
               case DecodeError => Dead)
    case Query(p) => To(s, p, Of(s, p).(saw := Of(s, p).saw + [Last(s)]))
    case Fill(p, up) =>
      var r := if up then Put(s.redis, STATS_KEY, Tag(s, Of(s, p)), s.ttl) else s.redis;
      To(s.(redis := r), p, Answered(Tag(s, Of(s, p)).stats, false))
    case Insert(p, id, row) => To(s, p, Inserted(id, row))
    case Lock(p, id, target) =>
      To(s.(locks := s.locks[id := p]), p, Locked(id, Current(s)[id], target))
    case Refuse(p) => To(Release(s, Of(s, p)), p, Refused(Of(s, p).row.status, Of(s, p).target))
    case Flush(p) => To(s, p, Flushed(Of(s, p).id, Of(s, p).row, Of(s, p).target))
    case Commit(p) =>
      var q, db := Of(s, p), Current(s);
      var t := if q.Inserted? then db[q.id := q.row]
               else if q.id in db then db[q.id := db[q.id].(status := q.target)]
               else db;
      To(Append(Release(s, q), t, false), p, Committed(|s.history|))
    case Invalidate(p, up) =>
      var v := Of(s, p).version;
      if up then To(s.(redis := Drop(s.redis, STATS_KEY), cleared := s.cleared + {v}), p, Finished(v))
      else To(s.(missed := s.missed + {v}), p, Finished(v))
    case Abort(p) =>
      var q := Of(s, p);
      var m := if q.Committed? then s.missed + {q.version} else s.missed;
      To(Release(s, q).(missed := m), p, Dead)
    case Foreign(t) => Append(s, t, true).(missed := s.missed + {|s.history|})
  }

  /** A server just started on some table: nothing cached, nothing locked, nobody at work. */
  predicate Initial(s: Sys) {
    && |s.history| == 1 && s.history[0].at <= s.redis.now
    && STATS_KEY !in s.redis.strings
    && s.locks == map[] && s.procs == map[] && s.cleared == {} && s.missed == {}
  }

  /** Every event of the run was possible when it happened. */
  predicate Legal(s: Sys, run: seq<Event>)
    decreases |run|
  {
    run == [] || (Legal(s, run[..|run| - 1]) && Enabled(After(s, run[..|run| - 1]), run[|run| - 1]))
  }

  /** The state a run leads to; an event that is not possible changes nothing. */
  function After(s: Sys, run: seq<Event>): Sys {
    if run == [] then s
    else
      var t := After(s, run[..|run| - 1]);
      if Enabled(t, run[|run| - 1]) then Apply(t, run[|run| - 1]) else t
  }
}
