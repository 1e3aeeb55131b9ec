/** The inductive invariant of the concurrent server and what follows from it. */
module ServerInvariant {
  import opened Database
  import opened Service
  import opened Lock
  import opened LockInvariant
  import opened Server
  import opened Linearizability
  import LockSafety

  predicate Entering(p: Pc) {
    p in {WLock, WInc, WTest, WJoin, WWait, WUnlock, WGate,
          RLong, RJoin, RWait, RLock, RInc, RTest, RGate, RUnlock, RPostShort, RPostLong}
  }

  predicate Leaving(p: Pc) {
    p in {WOpen, XLock, XDec, XTest, XPost, XUnlock, QLock, QDec, QTest, QOpen, QUnlock}
  }

  predicate OnReaderSide(p: Pc) {
    p in {RLong, RJoin, RWait, RLock, RInc, RTest, RGate, RUnlock, RPostShort, RPostLong,
          RIn, QLock, QDec, QTest, QOpen, QUnlock}
  }

  /** A thread's place in the lock and the phase of its request fit together. */
  predicate JobFits(p: Pc, j: Job) {
    && (j.Idle? <==> p == Out)
    && (j.Job? ==>
         && (OnReaderSide(p) <==> SyncRole(j.req) == Reader)
         && (Entering(p) ==> j.phase.Fresh?)
         && (Leaving(p) ==> j.phase.Answered?)
         && (j.phase.Checked? ==> NeedsCheck(j.req))
         && (j.phase.HalfDone? ==> j.req.CancelReservation?))
  }

  ghost predicate JobsFit(s: Sys) {
    && s.jobs.Keys == s.lock.pc.Keys
    && forall t | t in s.jobs :: JobFits(s.lock.pc[t], s.jobs[t])
  }

  /** The tables are those of the order so far, up to one half-done cancellation whose
      thread is alone in its critical section; what a handler found out still holds. */
  ghost predicate TablesFit(s: Sys, db0: Tables) {
    var base := Replay(db0, s.lin);
    && (forall t | t in s.jobs && s.jobs[t].Job? && s.jobs[t].phase.HalfDone? && s.jobs[t].req.CancelReservation? ::
          Check(base, s.jobs[t].req) && First(base, s.jobs[t].req) == Executed(s.db, Done))
    && ((forall t | t in s.jobs && s.jobs[t].Job? :: !s.jobs[t].phase.HalfDone?) ==> s.db == base)
    && (forall t | t in s.jobs && s.jobs[t].Job? && s.jobs[t].phase.Checked? && NeedsCheck(s.jobs[t].req) ::
          s.jobs[t].phase.found == Check(s.db, s.jobs[t].req))
  }

  /** Request ids are fresh, and each phase is visible in the order and the history. */
  ghost predicate JobRecorded(s: Sys, j: Job) {
    j.Job? ==>
      && j.id < s.next && Invoke(j.id, j.req) in s.hist
      && (if Settled(j.phase) then Op(j.id, j.req, j.phase.reply) in s.lin else !Listed(s.lin, j.id))
      && (j.phase.Answered? <==> Responded(s.hist, j.id))
  }

  ghost predicate Outstanding(s: Sys, id: nat) {
    exists t :: t in s.jobs && s.jobs[t].Job? && s.jobs[t].id == id
  }

  ghost predicate Recorded(s: Sys) {
    && (forall t | t in s.jobs :: JobRecorded(s, s.jobs[t]))
    && (forall t, u | t in s.jobs && u in s.jobs && t != u && s.jobs[t].Job? && s.jobs[u].Job? ::
          s.jobs[t].id != s.jobs[u].id)
    && (forall op | op in s.lin :: op.id < s.next)
    && (forall e | e in s.hist :: e.id < s.next)
  }

  /** Every request arrives once, and is answered or in progress. */
  ghost predicate HistoryFit(s: Sys) {
    && (forall e, f | e in s.hist && f in s.hist && e.Invoke? && f.Invoke? && e.id == f.id :: e == f)
    && (forall e | e in s.hist && e.Invoke? :: Responded(s.hist, e.id) || Outstanding(s, e.id))
  }

  ghost predicate SysInv(s: Sys, db0: Tables) {
    && Inv(s.lock) && JobsFit(s) && TablesFit(s, db0) && Recorded(s) && HistoryFit(s)
    && LinearizedBy(db0, s.hist, s.lin)
  }

  // ---- The invariant at the start ----

  lemma InitialSysInv(s: Sys, db0: Tables)
    requires SysInitial(s, db0)
    ensures SysInv(s, db0)
  {
    hide Inv;
    InitialInv(s.lock);
  }

  // ---- Who is alone ----

  ghost predicate OthersIdleInHandlers(s: Sys, t: Thread) {
    forall u | u in s.jobs && u != t && s.jobs[u].Job? :: !s.jobs[u].phase.Checked? && !s.jobs[u].phase.HalfDone?
  }

  /** Beside a thread in its critical section, nobody is in the middle of a handler. */
  lemma Alone(s: Sys, t: Thread)
    requires Inv(s.lock) && JobsFit(s) && Inside(s, t)
    ensures OthersIdleInHandlers(s, t)
  {
    hide Inv;
    forall u | u in s.jobs && u != t && s.jobs[u].Job?
      ensures !s.jobs[u].phase.Checked? && !s.jobs[u].phase.HalfDone?
    {
      if s.lock.pc[u] == WIn {
        LockSafety.ExclusionFromInv(s.lock, u, t);
      }
    }
  }

  // ---- Places in the lock ----

  lemma PointsAdvance(p: Pc, v: Shared)
    requires p != Out
    ensures var q := Next(p, v);
      && (q == Out ==> Leaving(p))
      && (q != Out ==> (OnReaderSide(q) <==> OnReaderSide(p)))
      && (Entering(q) ==> Entering(p))
      && (Leaving(q) ==> Leaving(p) || p in {WIn, RIn})
  {}

  lemma LocksJobsFit(s: Sys, s': Sys, t: Thread)
    requires JobsFit(s) && Locks(s, s', t)
    ensures JobsFit(s')
  {
    hide Next, Effect, Requeue, Passable;
    PointsAdvance(s.lock.pc[t], s.lock.v);
  }

  lemma ReceivesJobsFit(s: Sys, s': Sys, t: Thread, req: Request)
    requires JobsFit(s) && Receives(s, s', t, req)
    ensures JobsFit(s')
  {}

  lemma PhaseJobsFit(s: Sys, s': Sys, t: Thread)
    requires JobsFit(s) && Inside(s, t) && s'.lock == s.lock
    requires t in s'.jobs && s'.jobs == s.jobs[t := s'.jobs[t]]
    requires s'.jobs[t].Job? && s'.jobs[t].req == s.jobs[t].req
    requires s'.jobs[t].phase.Checked? ==> NeedsCheck(s.jobs[t].req)
    requires s'.jobs[t].phase.HalfDone? ==> s.jobs[t].req.CancelReservation?
    ensures JobsFit(s')
  {}

  // ---- The tables ----

  lemma NoHalfDone(s: Sys, db0: Tables, t: Thread)
    requires TablesFit(s, db0) && Inside(s, t) && OthersIdleInHandlers(s, t) && !s.jobs[t].phase.HalfDone?
    ensures s.db == Replay(db0, s.lin)
  {}

  /** Settling on the reply and the tables of the sequential server. */
  lemma SettlesTables(s: Sys, s': Sys, db0: Tables, t: Thread, reply: Reply, db: Tables)
    requires OthersIdleInHandlers(s, t) && Inside(s, t) && s' == Decide(s, t, reply).(db := db)
    requires db == After(Replay(db0, s.lin), s.jobs[t].req)
    ensures TablesFit(s', db0)
  {
    hide After;
    assert s'.lin[..|s.lin|] == s.lin;
  }

  lemma HalfDoneTables(s: Sys, s': Sys, db0: Tables, t: Thread)
    requires TablesFit(s, db0) && OthersIdleInHandlers(s, t) && Executes(s, s', t)
    requires s'.jobs.Keys == s.jobs.Keys && s'.jobs[t].Job? && s'.jobs[t].phase.HalfDone?
    ensures TablesFit(s', db0)
  {
    hide Replay, Check, First;
    NoHalfDone(s, db0, t);
  }

  lemma ChecksTables(s: Sys, s': Sys, db0: Tables, t: Thread)
    requires TablesFit(s, db0) && ChecksExistence(s, s', t)
    ensures TablesFit(s', db0)
  {
    hide Replay, Check, First;
    if forall u | u in s'.jobs && s'.jobs[u].Job? :: !s'.jobs[u].phase.HalfDone? {
      forall u | u in s.jobs && s.jobs[u].Job? ensures !s.jobs[u].phase.HalfDone? {
        assert u == t || s'.jobs[u] == s.jobs[u];
      }
    }
  }

  /** The request is in the middle of its handler. */
  predicate Midway(j: Job) {
    j.Job? && (j.phase.Checked? || j.phase.HalfDone?)
  }

  /** Steps that leave the tables, the order and the requests in mid-handler alone. */
  lemma SameTables(s: Sys, s': Sys, db0: Tables)
    requires TablesFit(s, db0) && s'.db == s.db && s'.lin == s.lin && s'.jobs.Keys == s.jobs.Keys
    requires forall t | t in s.jobs :: s'.jobs[t] == s.jobs[t] || (!Midway(s.jobs[t]) && !Midway(s'.jobs[t]))
    ensures TablesFit(s', db0)
  {
    hide Replay, First, Check;
    if forall t | t in s'.jobs && s'.jobs[t].Job? :: !s'.jobs[t].phase.HalfDone? {
      forall t | t in s.jobs && s.jobs[t].Job? ensures !s.jobs[t].phase.HalfDone? {
        assert s'.jobs[t] == s.jobs[t] || !Midway(s.jobs[t]);
      }
    }
  }

  lemma LocksTables(s: Sys, s': Sys, db0: Tables, t: Thread)
    requires JobsFit(s) && TablesFit(s, db0) && Locks(s, s', t)
    ensures TablesFit(s', db0)
  {
    hide Next, Effect, Requeue, Passable, TablesFit;
    PointsAdvance(s.lock.pc[t], s.lock.v);
    SameTables(s, s', db0);
  }

  // ---- The records ----

  lemma ListedAppend(lin: seq<Op>, op: Op)
    ensures forall id :: Listed(lin + [op], id) <==> Listed(lin, id) || id == op.id
  {
    var all := lin + [op];
    forall id ensures Listed(all, id) <==> Listed(lin, id) || id == op.id {
      assert all[|lin|] == op;
      if Listed(lin, id) {
        var k :| 0 <= k < |lin| && lin[k].id == id;
        assert all[k].id == id;
      }
    }
  }

  lemma RespondedAppend(hist: seq<Event>, e: Event)
    ensures forall i :: Responded(hist + [e], i) <==> Responded(hist, i) || (e.Respond? && i == e.id)
  {
    var all := hist + [e];
    forall i ensures Responded(all, i) <==> Responded(hist, i) || (e.Respond? && i == e.id) {
      assert all[|hist|] == e;
      if Responded(hist, i) {
        var k :| 0 <= k < |hist| && hist[k].Respond? && hist[k].id == i;
        assert all[k] == hist[k];
      }
    }
  }

  lemma SettlesRecorded(s: Sys, s': Sys, t: Thread, reply: Reply, db: Tables)
    requires Recorded(s) && Inside(s, t) && s' == Decide(s, t, reply).(db := db) && !Settled(s.jobs[t].phase)
    ensures Recorded(s')
  {
    hide Listed, Responded;
    ListedAppend(s.lin, Op(s.jobs[t].id, s.jobs[t].req, reply));
  }

  lemma PhaseRecorded(s: Sys, s': Sys, t: Thread, phase: Phase, db: Tables)
    requires Recorded(s) && Inside(s, t) && s' == WithPhase(s, t, phase).(db := db)
    requires !phase.Answered? && !s.jobs[t].phase.Answered?
    requires Settled(phase) <==> Settled(s.jobs[t].phase)
    requires Settled(phase) ==> phase.reply == s.jobs[t].phase.reply
    ensures Recorded(s')
  {
    hide Listed, Responded;
  }

  lemma AnswersRecorded(s: Sys, s': Sys, t: Thread)
    requires Recorded(s) && Inside(s, t) && Settled(s.jobs[t].phase) && s' == Answer(s, t, s.jobs[t].phase.reply)
    ensures Recorded(s')
  {
    hide Listed, Responded;
    RespondedAppend(s.hist, Respond(s.jobs[t].id, s.jobs[t].phase.reply));
  }

  lemma ReceivesRecorded(s: Sys, s': Sys, t: Thread, req: Request)
    requires Recorded(s) && Receives(s, s', t, req)
    ensures Recorded(s')
  {
    RespondedAppend(s.hist, Invoke(s.next, req));
  }

  lemma LocksRecorded(s: Sys, s': Sys, t: Thread)
    requires Recorded(s) && Locks(s, s', t)
    ensures Recorded(s')
  {
    hide Effect, Requeue, Passable, Next;
  }

  lemma JobIsRecorded(s: Sys, t: Thread)
    requires Recorded(s) && t in s.jobs
    ensures JobRecorded(s, s.jobs[t])
  {}

  lemma SettlesFresh(s: Sys, t: Thread)
    requires Recorded(s) && Inside(s, t) && !Settled(s.jobs[t].phase)
    ensures var j := s.jobs[t]; !Listed(s.lin, j.id) && !Responded(s.hist, j.id) && Invoke(j.id, j.req) in s.hist
  {
    JobIsRecorded(s, t);
  }

  lemma NextUnlisted(s: Sys)
    requires Recorded(s)
    ensures !Listed(s.lin, s.next)
  {}

  // ---- The history ----

  lemma SameJobsOutstanding(s: Sys, s': Sys)
    requires s'.jobs.Keys == s.jobs.Keys
    requires forall t | t in s.jobs && s.jobs[t].Job? :: s'.jobs[t].Job? && s'.jobs[t].id == s.jobs[t].id
    ensures forall id :: Outstanding(s, id) ==> Outstanding(s', id)
  {
    forall id | Outstanding(s, id) ensures Outstanding(s', id) {
      var u :| u in s.jobs && s.jobs[u].Job? && s.jobs[u].id == id;
      assert s'.jobs[u].Job?;
    }
  }

  lemma SameHistory(s: Sys, s': Sys)
    requires HistoryFit(s) && s'.hist == s.hist && s'.jobs.Keys == s.jobs.Keys
    requires forall t | t in s.jobs && s.jobs[t].Job? :: s'.jobs[t].Job? && s'.jobs[t].id == s.jobs[t].id
    ensures HistoryFit(s')
  {
    hide Outstanding, Responded;
    SameJobsOutstanding(s, s');
  }

  lemma AnswersHistory(s: Sys, s': Sys, t: Thread, reply: Reply)
    requires HistoryFit(s) && Inside(s, t) && s' == Answer(s, t, reply)
    ensures HistoryFit(s')
  {
    hide Responded, Outstanding;
    SameJobsOutstanding(s, s');
    RespondedAppend(s.hist, Respond(s.jobs[t].id, reply));
  }

  lemma ReceivesHistory(s: Sys, s': Sys, t: Thread, req: Request)
    requires Recorded(s) && HistoryFit(s) && Receives(s, s', t, req)
    ensures HistoryFit(s')
  {
    hide JobRecorded, Start;
    RespondedAppend(s.hist, Invoke(s.next, req));
    forall id | Outstanding(s, id) ensures Outstanding(s', id) {
      var u :| u in s.jobs && s.jobs[u].Job? && s.jobs[u].id == id;
      assert s'.jobs[u] == s.jobs[u];
    }
    assert s'.jobs[t].Job? && s'.jobs[t].id == s.next;
  }

  lemma LocksHistory(s: Sys, s': Sys, t: Thread)
    requires JobsFit(s) && Recorded(s) && HistoryFit(s) && Locks(s, s', t)
    ensures HistoryFit(s')
  {
    hide Effect, Requeue, Passable, Next;
    PointsAdvance(s.lock.pc[t], s.lock.v);
    forall id | Outstanding(s, id) && !Responded(s.hist, id) ensures Outstanding(s', id) {
      var u :| u in s.jobs && s.jobs[u].Job? && s.jobs[u].id == id;
      assert s'.jobs[u] == s.jobs[u];
    }
  }

  // ---- Every step, after any run ----

  ghost predicate Started(run: seq<Sys>, db0: Tables) {
    SysRun(run) && SysInitial(run[0], db0)
  }

  function Last(run: seq<Sys>): Sys
    requires run != []
  {
    run[|run| - 1]
  }

  /** The reply is determined: the order grows by the request. */
  lemma SettlesInv(run: seq<Sys>, s': Sys, db0: Tables, t: Thread, reply: Reply, db: Tables)
    requires Started(run, db0) && Inside(Last(run), t) && s' == Decide(Last(run), t, reply).(db := db)
    requires !Settled(Last(run).jobs[t].phase)
    requires var base, req := Replay(db0, Last(run).lin), Last(run).jobs[t].req;
      Serves(base, req, reply) && db == After(base, req)
    ensures SysInv(s', db0)
    decreases |run|, 1
  {
    var s := Last(run);
    hide Started, OthersIdleInHandlers, JobsFit, HistoryFit, JobRecorded, Inv, TablesFit, Recorded, LinearizedBy,
      Serves, After, Replay;
    RunSysInv(run, db0);
    Alone(s, t);
    PhaseJobsFit(s, s', t);
    SettlesTables(s, s', db0, t, reply, db);
    SettlesRecorded(s, s', t, reply, db);
    SameHistory(s, s');
    SettlesFresh(s, t);
    OpAppends(db0, s.hist, s.lin, Op(s.jobs[t].id, s.jobs[t].req, reply));
  }

  lemma RefusesInv(run: seq<Sys>, s': Sys, db0: Tables, t: Thread)
    requires Started(run, db0) && Refuses(Last(run), s', t)
    ensures SysInv(s', db0)
    decreases |run|, 2
  {
    var s := Last(run);
    hide Started, Inv, Recorded, Check, LinearizedBy, Replay;
    RunSysInv(run, db0);
    Alone(s, t);
    NoHalfDone(s, db0, t);
    SettlesInv(run, s', db0, t, Error(NoSuchElement), s.db);
  }

  lemma ExecutesInv(run: seq<Sys>, s': Sys, db0: Tables, t: Thread)
    requires Started(run, db0) && Executes(Last(run), s', t)
    ensures SysInv(s', db0)
    decreases |run|, 2
  {
    var s := Last(run);
    hide Started, OthersIdleInHandlers, JobsFit, HistoryFit, Inv, Recorded, Check, LinearizedBy, Replay, First;
    RunSysInv(run, db0);
    Alone(s, t);
    NoHalfDone(s, db0, t);
    var j, e := s.jobs[t], First(s.db, s.jobs[t].req);
    if j.req.CancelReservation? && e.outcome == Done {
      PhaseJobsFit(s, s', t);
      HalfDoneTables(s, s', db0, t);
      PhaseRecorded(s, s', t, HalfDone, e.db);
      SameHistory(s, s');
    } else {
      SettlesInv(run, s', db0, t, Acknowledge(e.outcome), e.db);
    }
  }

  lemma ExecutesSecondInv(run: seq<Sys>, s': Sys, db0: Tables, t: Thread)
    requires Started(run, db0) && ExecutesSecond(Last(run), s', t)
    ensures SysInv(s', db0)
    decreases |run|, 2
  {
    var s := Last(run);
    hide Started, Inv, Recorded, Check, LinearizedBy, Replay, First, Second;
    RunSysInv(run, db0);
    var e := Second(s.db, s.jobs[t].req);
    SettlesInv(run, s', db0, t, Acknowledge(e.outcome), e.db);
  }

  lemma RunsQueryInv(run: seq<Sys>, s': Sys, db0: Tables, t: Thread, reply: Reply)
    requires Started(run, db0) && RunsQuery(Last(run), s', t, reply)
    ensures SysInv(s', db0)
    decreases |run|, 2
  {
    var s := Last(run);
    hide Started, Inv, Recorded, Check, LinearizedBy, Replay, First, Answers;
    RunSysInv(run, db0);
    Alone(s, t);
    NoHalfDone(s, db0, t);
    SettlesInv(run, s', db0, t, reply, s.db);
  }

  lemma ChecksInv(run: seq<Sys>, s': Sys, db0: Tables, t: Thread)
    requires Started(run, db0) && ChecksExistence(Last(run), s', t)
    ensures SysInv(s', db0)
    decreases |run|, 2
  {
    var s := Last(run);
    hide Started, JobsFit, TablesFit, HistoryFit, Inv, LinearizedBy, First, Check, Replay, Recorded;
    RunSysInv(run, db0);
    PhaseJobsFit(s, s', t);
    ChecksTables(s, s', db0, t);
    PhaseRecorded(s, s', t, Checked(Check(s.db, s.jobs[t].req)), s.db);
    SameHistory(s, s');
  }

  /** The transfer of a list opens or goes on. */
  lemma SendsInv(run: seq<Sys>, s': Sys, db0: Tables, t: Thread, left: nat)
    requires Started(run, db0) && Inside(Last(run), t)
    requires var phase := Last(run).jobs[t].phase;
      (phase.Decided? || phase.Sending?) && s' == WithPhase(Last(run), t, Sending(phase.reply, left))
    ensures SysInv(s', db0)
    decreases |run|, 2
  {
    var s := Last(run);
    hide Started, JobsFit, Inv, LinearizedBy, TablesFit, Recorded, HistoryFit;
    RunSysInv(run, db0);
    PhaseJobsFit(s, s', t);
    SameTables(s, s', db0);
    PhaseRecorded(s, s', t, Sending(s.jobs[t].phase.reply, left), s.db);
    SameHistory(s, s');
  }

  lemma AnswersInv(run: seq<Sys>, s': Sys, db0: Tables, t: Thread)
    requires Started(run, db0) && Inside(Last(run), t)
    requires var phase := Last(run).jobs[t].phase;
      (phase.Decided? || phase.Sending?) && s' == Answer(Last(run), t, phase.reply)
    ensures SysInv(s', db0)
    decreases |run|, 2
  {
    var s := Last(run);
    hide Started, JobsFit, Inv, LinearizedBy, TablesFit, Recorded, HistoryFit;
    var j := s.jobs[t];
    RunSysInv(run, db0);
    PhaseJobsFit(s, s', t);
    SameTables(s, s', db0);
    JobIsRecorded(s, t);
    RespondAppends(db0, s.hist, s.lin, Op(j.id, j.req, j.phase.reply));
    AnswersRecorded(s, s', t);
    AnswersHistory(s, s', t, j.phase.reply);
  }

  lemma ReceivesInv(run: seq<Sys>, s': Sys, db0: Tables, t: Thread, req: Request)
    requires Started(run, db0) && Receives(Last(run), s', t, req)
    ensures SysInv(s', db0)
    decreases |run|, 2
  {
    var s := Last(run);
    hide Started, JobsFit, Inv, LinearizedBy, TablesFit, Recorded, HistoryFit;
    RunSysInv(run, db0);
    ReceivesJobsFit(s, s', t, req);
    SameTables(s, s', db0);
    StartKeepsInv(s.lock, s'.lock, t, SyncRole(req));
    NextUnlisted(s);
    InvokeAppends(db0, s.hist, s.lin, s.next, req);
    ReceivesRecorded(s, s', t, req);
    ReceivesHistory(s, s', t, req);
  }

  lemma LocksInv(run: seq<Sys>, s': Sys, db0: Tables, t: Thread)
    requires Started(run, db0) && Locks(Last(run), s', t)
    ensures SysInv(s', db0)
    decreases |run|, 2
  {
    var s := Last(run);
    hide Started, JobsFit, Inv, LinearizedBy, TablesFit, Recorded, HistoryFit, Next, Effect, Requeue, Passable;
    RunSysInv(run, db0);
    MoveKeepsInv(s.lock, s'.lock, t);
    LocksJobsFit(s, s', t);
    LocksTables(s, s', db0, t);
    LocksRecorded(s, s', t);
    LocksHistory(s, s', t);
  }

  lemma HandlesInv(run: seq<Sys>, s': Sys, db0: Tables, t: Thread)
    requires Started(run, db0) && Handles(Last(run), s', t)
    ensures SysInv(s', db0)
    decreases |run|, 3
  {
    var s := Last(run);
    hide Started, SysInv, ChecksExistence, Refuses, Executes, ExecutesSecond, RunsQuery;
    if ChecksExistence(s, s', t) {
      ChecksInv(run, s', db0, t);
    } else if Refuses(s, s', t) {
      RefusesInv(run, s', db0, t);
    } else if Executes(s, s', t) {
      ExecutesInv(run, s', db0, t);
    } else if ExecutesSecond(s, s', t) {
      ExecutesSecondInv(run, s', db0, t);
    } else if reply :| RunsQuery(s, s', t, reply) {
      RunsQueryInv(run, s', db0, t, reply);
    } else if s'.jobs[t].phase.Sending? {
      SendsInv(run, s', db0, t, s'.jobs[t].phase.left);
    } else {
      AnswersInv(run, s', db0, t);
    }
  }

  /** The invariant holds at the end of every run. */
  lemma {:induction false} RunSysInv(run: seq<Sys>, db0: Tables)
    requires Started(run, db0)
    ensures SysInv(Last(run), db0)
    decreases |run|, 0
  {
    hide SysInv, SysInitial, Handles, Locks, Receives;
    if |run| == 1 {
      InitialSysInv(run[0], db0);
    } else {
      var front, s' := run[..|run| - 1], Last(run);
      assert SysStep(Last(front), s');
      var t :| SysStepOf(Last(front), s', t);
      if Locks(Last(front), s', t) {
        LocksInv(front, s', db0, t);
      } else if Handles(Last(front), s', t) {
        HandlesInv(front, s', db0, t);
      } else {
        var req :| Receives(Last(front), s', t, req);
        ReceivesInv(front, s', db0, t, req);
      }
    }
  }
}
