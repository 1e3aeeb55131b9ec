/** Progress of the lock: no deadlock, a bound on the length of every run, and what is
    left when no thread can move. */
module LockLiveness {
  import opened Lock
  import opened LockInvariant
  import opened Sums

  // ---- No deadlock ----

  /** Nobody is counted at a point whose action could be taken. */
  ghost predicate Blocked(c: Tally, v: Shared) {
    forall p | p != Out && Passable(p, v) :: c[p] == 0
  }

  lemma {:induction false} BlockedCount(pc: map<Thread, Pc>, v: Shared)
    requires forall t | t in pc :: pc[t] == Out || !Passable(pc[t], v)
    ensures Blocked(Count(pc), v)
    decreases |pc|
  {
    hide Passable;
    if pc == map[] {
    } else {
      var t :| t in pc;
      Smaller(pc, t);
      Single(pc, t);
      BlockedCount(pc - {t}, v);
    }
  }

  lemma BlockedWriters(c: Tally, v: Shared)
    requires Blocked(c, v)
    ensures c[WInc] + c[WTest] + c[WJoin] + c[WUnlock] == 0
    ensures c[WIn] + c[WOpen] + c[XDec] + c[XTest] + c[XPost] + c[XUnlock] == 0
    ensures (!v.wMtx ==> c[WLock] + c[XLock] == 0) && (!v.gMtx ==> c[WGate] == 0) && (v.shortwait > 0 ==> c[WWait] == 0)
  {}

  lemma BlockedReaders(c: Tally, v: Shared)
    requires Blocked(c, v)
    ensures c[RJoin] + c[RInc] + c[RTest] + c[RUnlock] + c[RPostShort] + c[RPostLong] == 0
    ensures c[RIn] + c[QDec] + c[QTest] + c[QOpen] + c[QUnlock] == 0
    ensures (!v.rMtx ==> c[RLock] + c[QLock] == 0) && (!v.gMtx ==> c[RGate] == 0)
    ensures (v.longwait > 0 ==> c[RLong] == 0) && (v.shortwait > 0 ==> c[RWait] == 0)
  {}

  /** The heart of it: if every thread is blocked, there is none. */
  lemma BlockedIsNobody(c: Tally, v: Shared)
    requires Counts(c, v) && Blocked(c, v)
    ensures Nobody(c)
  {
    hide Blocked;
    BlockedWriters(c, v);
    BlockedReaders(c, v);
  }

  /** If no thread can move then every thread is out. */
  lemma NobodyMovesMeansOut(s: State, t: Thread)
    requires Inv(s) && (forall u :: !CanMove(s, u)) && t in s.pc
    ensures s.pc[t] == Out
  {
    hide Count, Counts, Queued, Blocked, Passable;
    forall u | u in s.pc ensures s.pc[u] == Out || !Passable(s.pc[u], s.v) {
      assert !CanMove(s, u);
    }
    BlockedCount(s.pc, s.v);
    BlockedIsNobody(Count(s.pc), s.v);
    Single(s.pc, t);
    assert Count(s.pc)[s.pc[t]] > 0;
  }

  /** No reachable state is a deadlock: as long as some thread is between
      `enter_critical` and the end of `leave_critical`, some such thread can move. */
  lemma NoDeadlock(s: State, t: Thread)
    requires Reachable(s) && t in s.pc && s.pc[t] != Out
    ensures exists u :: CanMove(s, u)
  {
    hide Inv, Reachable;
    ReachableInv(s);
    if forall u :: !CanMove(s, u) {
      NobodyMovesMeansOut(s, t);
    }
  }

  lemma NobodyVars(c: Tally, v: Shared)
    requires Nobody(c) && Counts(c, v)
    ensures v == Shared(false, false, false, 1, 1, 0, 0)
  {}

  /** With every thread out, the global variables are as at the start. */
  lemma OutIsInitial(s: State)
    requires Inv(s) && forall t | t in s.pc :: s.pc[t] == Out
    ensures Initial(s)
  {
    hide Count, Counts, Nobody;
    assert s.queue == [] || s.queue[0] in s.queue;
    AllOut(s.pc);
    NobodyVars(Count(s.pc), s.v);
  }

  /** A reachable state in which no thread can move is an initial state again: all
      threads out, counters 0, semaphores 1, mutexes free. */
  lemma QuiescentIsInitial(s: State)
    requires Reachable(s) && forall u :: !CanMove(s, u)
    ensures Initial(s)
  {
    hide Reachable, Inv;
    ReachableInv(s);
    forall t | t in s.pc ensures s.pc[t] == Out {
      NobodyMovesMeansOut(s, t);
    }
    OutIsInitial(s);
  }

  // ---- Nobody waits for nothing ----

  /** The points between getting what `p` waits for and giving it back. */
  function Holding(p: Pc): set<Pc> {
    match p
    case WLock | XLock => {WInc, WTest, WJoin, WWait, WUnlock, XDec, XTest, XPost, XUnlock}
    case RLock | QLock => {RInc, RTest, RGate, RUnlock, QDec, QTest, QOpen, QUnlock}
    case RLong => {RJoin, RWait, RLock, RInc, RTest, RGate, RUnlock, RPostShort, RPostLong}
    case WWait | RWait =>
      {RLock, RInc, RTest, RGate, RUnlock, RPostShort}
      + {WTest, WUnlock, WGate, WIn, WOpen, XLock, XDec, XTest, XPost}
    case WGate => {WIn, WOpen} + {RTest, RUnlock, RPostShort, RPostLong, RIn, QLock, QDec, QTest, QOpen}
    case _ => {}
  }

  lemma HolderCounts(c: Tally, p: Pc, v: Shared)
    requires Counts(c, v) && c[p] > 0 && p != Out && !Passable(p, v)
    ensures exists q :: q in Holding(p) && c[q] > 0
  {}

  /** A blocked thread waits for something that some thread holds at that moment, alone or
      for its group: nothing else ever keeps a thread waiting. */
  lemma EveryWaitHasAHolder(s: State, t: Thread)
    requires Reachable(s) && t in s.pc && s.pc[t] != Out && !CanMove(s, t)
    ensures exists u :: u in s.pc && s.pc[u] in Holding(s.pc[t])
  {
    hide Reachable, Count, Counts, Plus, Holding, Passable;
    ReachableInv(s);
    Single(s.pc, t);
    PlusCounts(Count(s.pc - {t}), s.pc[t]);
    HolderCounts(Count(s.pc), s.pc[t], s.v);
    var q :| q in Holding(s.pc[t]) && Count(s.pc)[q] > 0;
    Present(s.pc, q);
  }

  lemma PlusCounts(k: Tally, p: Pc)
    ensures Plus(k, p)[p] > 0
  {}

  // ---- Readers do share ----

  /** Thread `t` stands at `p`, the others where they stand in `pc`. */
  ghost predicate Reaches(pc: map<Thread, Pc>, t: Thread, p: Pc, v: Shared, q: seq<Thread>) {
    Reachable(State(pc[t := p], v, q))
  }

  /** One action of thread `t`, everybody else standing still. */
  lemma Hop(pc: map<Thread, Pc>, t: Thread, p: Pc, v: Shared, q: seq<Thread>, p': Pc, v': Shared, q': seq<Thread>)
    requires Reaches(pc, t, p, v, q) && p != Out && Passable(p, v)
    requires Next(p, v) == p' && Effect(p, v) == v' && Requeue(p, q, t) == q'
    ensures Reaches(pc, t, p', v', q')
  {
    hide Reachable, Passable, Next, Effect, Requeue;
    var s := State(pc[t := p], v, q);
    assert s.pc[t := p'] == pc[t := p'];
    StepReaches(s, Advance(s, t), t);
  }

  /** The threads of `inside` are in as readers, the others are out. */
  ghost function Crowd(all: set<Thread>, inside: set<Thread>): State {
    State(map t | t in all :: if t in inside then RIn else Out,
          Shared(false, false, inside != {}, 1, 1, 0, |inside|), [])
  }

  lemma QueueOfOne(t: Thread)
    ensures Requeue(RLong, [], t) == [] && Requeue(RJoin, [], t) == [t] && Requeue(RWait, [t], t) == []
  {
    assert [t][1..] == [];
  }

  lemma PassesQueues(pc: map<Thread, Pc>, t: Thread, g: bool, k: nat)
    requires Reaches(pc, t, RLong, Shared(false, false, g, 1, 1, 0, k), [])
    ensures Reaches(pc, t, RLock, Shared(false, false, g, 0, 0, 0, k), [])
  {
    hide Reaches, Requeue;
    var v1, v2 := Shared(false, false, g, 1, 1, 0, k), Shared(false, false, g, 1, 0, 0, k);
    QueueOfOne(t);
    Hop(pc, t, RLong, v1, [], RJoin, v2, []);
    Hop(pc, t, RJoin, v2, [], RWait, v2, [t]);
    Hop(pc, t, RWait, v2, [t], RLock, Shared(false, false, g, 0, 0, 0, k), []);
  }

  lemma GetsCounted(pc: map<Thread, Pc>, t: Thread, g: bool, k: nat)
    requires g <==> k > 0
    requires Reaches(pc, t, RLock, Shared(false, false, g, 0, 0, 0, k), [])
    ensures Reaches(pc, t, RUnlock, Shared(false, true, true, 0, 0, 0, k + 1), [])
  {
    hide Reaches;
    var v1, v2 := Shared(false, true, g, 0, 0, 0, k), Shared(false, true, g, 0, 0, 0, k + 1);
    Hop(pc, t, RLock, Shared(false, false, g, 0, 0, 0, k), [], RInc, v1, []);
    Hop(pc, t, RInc, v1, [], RTest, v2, []);
    if k == 0 {
      Hop(pc, t, RTest, v2, [], RGate, v2, []);
      Hop(pc, t, RGate, v2, [], RUnlock, Shared(false, true, true, 0, 0, 0, k + 1), []);
    } else {
      Hop(pc, t, RTest, v2, [], RUnlock, v2, []);
    }
  }

  lemma GoesIn(pc: map<Thread, Pc>, t: Thread, k: nat)
    requires Reaches(pc, t, RUnlock, Shared(false, true, true, 0, 0, 0, k), [])
    ensures Reaches(pc, t, RIn, Shared(false, false, true, 1, 1, 0, k), [])
  {
    hide Reaches;
    var v1, v2 := Shared(false, false, true, 0, 0, 0, k), Shared(false, false, true, 1, 0, 0, k);
    Hop(pc, t, RUnlock, Shared(false, true, true, 0, 0, 0, k), [], RPostShort, v1, []);
    Hop(pc, t, RPostShort, v1, [], RPostLong, v2, []);
    Hop(pc, t, RPostLong, v2, [], RIn, Shared(false, false, true, 1, 1, 0, k), []);
  }

  /** Any set of threads can be in their critical sections together as readers. */
  lemma {:induction false} ReadersShare(all: set<Thread>, inside: set<Thread>)
    requires inside <= all
    ensures Reachable(Crowd(all, inside))
    decreases |inside|
  {
    hide Reachable, StepOf;
    if inside == {} {
      InitialReaches(Crowd(all, {}));
    } else {
      var t :| t in inside;
      var fewer := inside - {t};
      var s := Crowd(all, fewer);
      ReadersShare(all, fewer);
      StartReaches(s, t);
      PassesQueues(s.pc, t, fewer != {}, |fewer|);
      GetsCounted(s.pc, t, fewer != {}, |fewer|);
      GoesIn(s.pc, t, |inside|);
      assert Crowd(all, inside).pc == s.pc[t := RIn];
    }
  }

  lemma InitialReaches(s: State)
    requires Initial(s)
    ensures Reachable(s)
  {
    hide Initial;
    assert IsRun([s]) && [s][0] == s;
  }

  lemma StartReaches(s: State, t: Thread)
    requires Reachable(s) && t in s.pc && s.pc[t] == Out
    ensures Reachable(s.(pc := s.pc[t := RLong]))
  {
    hide Reachable;
    StepReaches(s, Start(s, t, Reader), t);
  }

  // ---- Every run is finite ----

  /** How many of its own actions a thread has before it at most. */
  function Rank(p: Pc): nat {
    match p
    case Out => 0
    case WLock => 14 case WInc => 13 case WTest => 12 case WJoin => 11
    case WWait => 10 case WUnlock => 9 case WGate => 8
    case WIn => 7 case WOpen => 6 case XLock => 5 case XDec => 4 case XTest => 3 case XPost => 2 case XUnlock => 1
    case RLong => 16 case RJoin => 15 case RWait => 14 case RLock => 13 case RInc => 12
    case RTest => 11 case RGate => 10 case RUnlock => 9 case RPostShort => 8 case RPostLong => 7
    case RIn => 6 case QLock => 5 case QDec => 4 case QTest => 3 case QOpen => 2 case QUnlock => 1
  }

  lemma RankDrops(p: Pc, v: Shared)
    requires p != Out
    ensures Rank(Next(p, v)) < Rank(p)
  {}

  /** The actions all threads together have before them at most. */
  ghost function Work(pc: map<Thread, Pc>): nat {
    Sum(pc, Rank)
  }

  /** The step is an `enter_critical`. */
  ghost predicate IsStart(s: State, s': State) {
    exists t :: t in s.pc && t in s'.pc && s.pc[t] == Out && s'.pc[t] != Out
  }

  ghost function StartCount(run: seq<State>): nat {
    if |run| < 2 then 0
    else StartCount(run[..|run| - 1]) + (if IsStart(run[|run| - 2], run[|run| - 1]) then 1 else 0)
  }

  lemma StepWork(s: State, s': State)
    requires Step(s, s')
    ensures Work(s'.pc) + 1 <= Work(s.pc) + (if IsStart(s, s') then 17 else 0)
  {
    hide Sum;
    var t :| StepOf(s, s', t);
    SumAfter(s.pc, Rank, t, s'.pc[t]);
    assert s'.pc == s.pc[t := s'.pc[t]];
    if Moves(s, s', t) {
      RankDrops(s.pc[t], s.v);
    } else {
      assert IsStart(s, s');
    }
  }

  /** Each `enter_critical` is paid for with at most 17 steps: a run of a finite workload
      is finite, whatever the interleaving. */
  lemma {:induction false} RunIsBounded(run: seq<State>)
    requires IsRun(run)
    ensures |run| - 1 + Work(run[|run| - 1].pc) <= Work(run[0].pc) + 17 * StartCount(run)
  {
    hide Work, IsStart, Step;
    if |run| == 1 {
    } else {
      var n := |run| - 1;
      var front := run[..n];
      assert forall i | 0 <= i < |front| :: front[i] == run[i];
      RunIsBounded(front);
      assert Step(run[n - 1], run[n]);
      StepWork(run[n - 1], run[n]);
    }
  }

  lemma {:induction false} NobodyStarts(run: seq<State>)
    requires forall i, t | 0 <= i < |run| - 1 && t in run[i].pc && t in run[i + 1].pc && run[i].pc[t] == Out ::
      run[i + 1].pc[t] == Out
    ensures StartCount(run) == 0
  {
    if |run| < 2 {
    } else {
      var n := |run| - 1;
      var front := run[..n];
      assert forall i | 0 <= i < |front| :: front[i] == run[i];
      NobodyStarts(front);
      assert !IsStart(run[n - 1], run[n]);
    }
  }

  lemma WorkAtMost(pc: map<Thread, Pc>)
    ensures Work(pc) <= 16 * |pc|
  {
    SumAtMost(pc, Rank, 16);
  }

  /** Once nobody enters any more, each thread has at most 16 steps before it. */
  lemma LastEntriesFinish(run: seq<State>)
    requires IsRun(run)
    requires forall i, t | 0 <= i < |run| - 1 && t in run[i].pc && t in run[i + 1].pc && run[i].pc[t] == Out ::
      run[i + 1].pc[t] == Out
    ensures |run| - 1 <= 16 * |run[0].pc|
  {
    hide IsStart, Step, Rank, StartCount;
    RunIsBounded(run);
    NobodyStarts(run);
    WorkAtMost(run[0].pc);
  }
}
