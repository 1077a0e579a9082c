/** What every step of the concurrent system keeps. */
module StoreInvariant {
  import opened Domain
  import opened Contract
  import opened Aggregates
  import opened Cache
  import opened Store

  /** What one commit of this service does to the table. */
  predicate LegalStep(t: Table, t': Table) {
    || (exists id | id in t' :: id !in t && t'[id].status == Open && t' == t[id := t'[id]])
    || (exists id | id in t && id in t' ::
          CanTransition(t[id].status, t'[id].status) && t' == t[id := t[id].(status := t'[id].status)])
  }

  ghost predicate HistoryOk(s: Sys) {
    && |s.history| >= 1
    && (forall i, j | 0 <= i <= j < |s.history| :: s.history[i].at <= s.history[j].at)
    && s.history[|s.history| - 1].at <= s.redis.now
    && (forall i | 0 < i < |s.history| && !s.history[i].foreign ::
          LegalStep(s.history[i - 1].table, s.history[i].table))
  }

  predicate Rising(saw: seq<nat>) {
    forall i, j | 0 <= i <= j < |saw| :: saw[i] <= saw[j]
  }

  /** A collection begun at time `began` saw, in order, versions no older than `floor`, which contains
      every commit made before that time. */
  ghost predicate Collected(history: seq<Version>, began: nat, floor: nat, saw: seq<nat>) {
    && floor < |history|
    && Rising(saw)
    && (forall k | 0 <= k < |saw| :: floor <= saw[k] < |history|)
    && (forall i | 0 <= i < |history| :: history[i].at < began ==> i <= floor)
  }

  ghost predicate ReadersOk(s: Sys) {
    forall p | p in s.procs && s.procs[p].Reading? ::
      var q := s.procs[p];
      |q.saw| <= QUERIES && q.began <= s.redis.now && Collected(s.history, q.began, q.floor, q.saw)
  }

  ghost predicate TagOk(s: Sys, t: Tagged) {
    && |t.saw| == QUERIES
    && Collected(s.history, t.began, t.floor, t.saw)
    && t.stats == Assemble(Seen(s.history, t.saw))
    && t.began <= t.stored <= s.redis.now
    && t.cleared == s.cleared
  }

  ghost predicate EntryOk(s: Sys) {
    STATS_KEY in s.redis.strings ==>
      var e := s.redis.strings[STATS_KEY];
      e.raw.Encoded? && TagOk(s, e.raw.value) && e.expires == e.raw.value.stored + 1000 * s.ttl
  }

  /** The lock table and the processes agree, and a lock holder still sees what it read. */
  ghost predicate LocksOk(s: Sys) {
    && (forall id | id in s.locks ::
          && id in Current(s) && s.locks[id] in s.procs && Holds(s.procs[s.locks[id]], id)
          && s.procs[s.locks[id]].row == Current(s)[id])
    && (forall p | p in s.procs && (s.procs[p].Locked? || s.procs[p].Flushed?) ::
          s.procs[p].id in s.locks && s.locks[s.procs[p].id] == p)
    && (forall p | p in s.procs && s.procs[p].Flushed? :: CanTransition(s.procs[p].row.status, s.procs[p].target))
    && (forall p | p in s.procs && s.procs[p].Inserted? :: s.procs[p].row.status == Open)
  }

  /** Some writer has committed version `v` and not yet deleted the key. */
  ghost predicate Pending(s: Sys, v: nat) {
    exists p :: p in s.procs && s.procs[p] == Committed(v)
  }

  /** Every commit's deletion is still to come, has happened, or, always if foreign, will never happen. */
  ghost predicate DeletesOk(s: Sys) {
    && (forall v | 0 < v < |s.history| :: Pending(s, v) || v in s.cleared || v in s.missed)
    && (forall v | 0 < v < |s.history| && s.history[v].foreign :: v in s.missed)
    && (forall v | v in s.cleared :: 0 < v < |s.history|)
    && (forall p | p in s.procs && s.procs[p].Committed? :: 0 < s.procs[p].version < |s.history|)
  }

  predicate Wrote(q: Proc) {
    q.Committed? || q.Finished?
  }

  /** A commit is one request's: no two have the same version to their name. */
  ghost predicate OwnersOk(s: Sys) {
    && (forall p | p in s.procs && Wrote(s.procs[p]) :: s.procs[p].version < |s.history|)
    && (forall p, q | p in s.procs && q in s.procs && Wrote(s.procs[p]) && Wrote(s.procs[q])
          && s.procs[p].version == s.procs[q].version :: p == q)
  }

  ghost predicate Inv(s: Sys) {
    HistoryOk(s) && ReadersOk(s) && EntryOk(s) && LocksOk(s) && DeletesOk(s) && OwnersOk(s)
  }

  lemma InitialInv(s: Sys)
    requires Initial(s)
    ensures Inv(s)
  {
  }

  /** A version is never altered; new ones are only added at the end. */
  lemma HistoryGrows(s: Sys, e: Event)
    requires Enabled(s, e)
    ensures s.history <= Apply(s, e).history && s.redis.now <= Apply(s, e).redis.now
    ensures Apply(s, e).ttl == s.ttl
  {
  }

  lemma HistoryKept(s: Sys, e: Event)
    requires HistoryOk(s) && LocksOk(s) && Enabled(s, e)
    ensures HistoryOk(Apply(s, e))
  {
    hide LegalStep, Tag, Lookup;
    if e.Commit? {
      CommitIsLegal(s, e);
    }
  }

  lemma CommitIsLegal(s: Sys, e: Event)
    requires LocksOk(s) && Enabled(s, e) && e.Commit?
    ensures LegalStep(Current(s), Current(Apply(s, e)))
  {
    var q, t := Of(s, e.p), Current(Apply(s, e));
    assert q.id in t;
    if q.Flushed? {
      assert s.locks[q.id] == e.p;
      assert q.id in Current(s) && t[q.id].status == q.target;
    }
  }

  lemma CollectedGrows(h: seq<Version>, h': seq<Version>, now: nat, began: nat, floor: nat, saw: seq<nat>)
    requires h <= h' && Collected(h, began, floor, saw) && began <= now
    requires forall i | |h| <= i < |h'| :: h'[i].at >= now
    ensures Collected(h', began, floor, saw)
    ensures Seen(h', saw) == Seen(h, saw)
  {
  }

  lemma NewVersionsAreNew(s: Sys, e: Event)
    requires Enabled(s, e)
    ensures forall i | |s.history| <= i < |Apply(s, e).history| :: Apply(s, e).history[i].at >= s.redis.now
  {
  }

  lemma ReadersKept(s: Sys, e: Event)
    requires HistoryOk(s) && ReadersOk(s) && Enabled(s, e)
    ensures ReadersOk(Apply(s, e))
  {
    var s' := Apply(s, e);
    HistoryGrows(s, e);
    NewVersionsAreNew(s, e);
    forall p | p in s'.procs && s'.procs[p].Reading?
      ensures |s'.procs[p].saw| <= QUERIES && s'.procs[p].began <= s'.redis.now
      ensures Collected(s'.history, s'.procs[p].began, s'.procs[p].floor, s'.procs[p].saw)
    {
      if p in s.procs && s.procs[p] == s'.procs[p] {
        var q := s.procs[p];
        CollectedGrows(s.history, s'.history, s.redis.now, q.began, q.floor, q.saw);
      }
    }
  }

  lemma EntryKept(s: Sys, e: Event)
    requires ReadersOk(s) && EntryOk(s) && Enabled(s, e)
    ensures EntryOk(Apply(s, e))
  {
    hide Assemble, Seen;
    var s' := Apply(s, e);
    HistoryGrows(s, e);
    NewVersionsAreNew(s, e);
    if STATS_KEY in s.redis.strings {
      var t := s.redis.strings[STATS_KEY].raw.value;
      CollectedGrows(s.history, s'.history, s.redis.now, t.began, t.floor, t.saw);
    }
  }

  lemma LocksKept(s: Sys, e: Event)
    requires LocksOk(s) && Enabled(s, e)
    ensures LocksOk(Apply(s, e))
  {
    if e.Commit? {
      LocksKeptByCommit(s, e);
    } else if e.Lock? {
      LocksKeptByLock(s, e);
    } else if e.Foreign? || e.Flush? || e.Insert? {
      LocksKeptByWrite(s, e);
    } else if e.Refuse? || e.Abort? {
      LocksKeptByEnd(s, e);
    } else {
      LocksUntouched(s, e);
    }
  }

  lemma LocksKeptByCommit(s: Sys, e: Event)
    requires LocksOk(s) && Enabled(s, e) && e.Commit?
    ensures LocksOk(Apply(s, e))
  {
    var q := Of(s, e.p);
    assert q.Flushed? ==> s.locks[q.id] == e.p;
  }

  lemma LocksKeptByLock(s: Sys, e: Event)
    requires LocksOk(s) && Enabled(s, e) && e.Lock?
    ensures LocksOk(Apply(s, e))
  {
  }

  lemma LocksKeptByWrite(s: Sys, e: Event)
    requires LocksOk(s) && Enabled(s, e) && (e.Foreign? || e.Flush? || e.Insert?)
    ensures LocksOk(Apply(s, e))
  {
  }

  lemma LocksKeptByEnd(s: Sys, e: Event)
    requires LocksOk(s) && Enabled(s, e) && (e.Refuse? || e.Abort?)
    ensures LocksOk(Apply(s, e))
  {
    var q := Of(s, e.p);
    assert q.Locked? || q.Flushed? ==> s.locks[q.id] == e.p;
  }

  lemma LocksUntouched(s: Sys, e: Event)
    requires LocksOk(s) && Enabled(s, e)
    requires e.Tick? || e.Probe? || e.Query? || e.Fill? || e.Invalidate?
    ensures LocksOk(Apply(s, e))
  {
    hide Tag, Lookup, Put, Drop;
  }

  lemma DeletesKept(s: Sys, e: Event)
    requires s.history != [] && DeletesOk(s) && Enabled(s, e)
    ensures DeletesOk(Apply(s, e))
  {
    var s' := Apply(s, e);
    BooksKept(s, e);
    hide Apply, Enabled;
    forall v | 0 < v < |s'.history| ensures Pending(s', v) || v in s'.cleared || v in s'.missed {
      if v >= |s.history| {
        NewVersionBooked(s, e, v);
      } else if Pending(s, v) {
        PendingSettled(s, e, v);
      }
    }
  }

  lemma BooksKept(s: Sys, e: Event)
    requires s.history != [] && DeletesOk(s) && Enabled(s, e)
    ensures var s' := Apply(s, e);
      && s.cleared <= s'.cleared && s.missed <= s'.missed
      && (forall v | 0 < v < |s'.history| && s'.history[v].foreign :: v in s'.missed)
      && (forall v | v in s'.cleared :: 0 < v < |s'.history|)
      && (forall p | p in s'.procs && s'.procs[p].Committed? :: 0 < s'.procs[p].version < |s'.history|)
  {
    hide Tag, Lookup, Put, Drop;
  }

  lemma NewVersionBooked(s: Sys, e: Event, v: nat)
    requires Enabled(s, e) && |s.history| <= v < |Apply(s, e).history|
    ensures Pending(Apply(s, e), v) || v in Apply(s, e).missed
  {
    hide Tag, Lookup, Put, Drop;
    if e.Commit? {
      assert Apply(s, e).procs[e.p] == Committed(v);
    }
  }

  lemma PendingSettled(s: Sys, e: Event, v: nat)
    requires Enabled(s, e) && Pending(s, v)
    ensures Pending(Apply(s, e), v) || v in Apply(s, e).cleared || v in Apply(s, e).missed
  {
    hide Tag, Lookup, Put, Drop;
    var p :| p in s.procs && s.procs[p] == Committed(v);
    assert p in Apply(s, e).procs;
  }

  lemma OwnersKept(s: Sys, e: Event)
    requires OwnersOk(s) && Enabled(s, e)
    ensures OwnersOk(Apply(s, e))
  {
    hide Tag, Lookup, Put, Drop;
  }

  lemma StepKeepsInv(s: Sys, e: Event)
    requires Inv(s) && Enabled(s, e)
    ensures Inv(Apply(s, e))
  {
    hide ReadersOk, EntryOk, LocksOk, DeletesOk, OwnersOk, Apply, Enabled;
    HistoryKept(s, e);
    ReadersKept(s, e);
    EntryKept(s, e);
    LocksKept(s, e);
    DeletesKept(s, e);
    OwnersKept(s, e);
  }

  /** The invariant holds throughout every run. */
  lemma {:induction false} RunKeepsInv(s: Sys, run: seq<Event>)
    requires Initial(s)
    ensures Inv(After(s, run))
    decreases |run|
  {
    if run == [] {
      InitialInv(s);
    } else {
      RunKeepsInv(s, run[..|run| - 1]);
      var t := After(s, run[..|run| - 1]);
      if Enabled(t, run[|run| - 1]) {
        StepKeepsInv(t, run[|run| - 1]);
      }
    }
  }
}
