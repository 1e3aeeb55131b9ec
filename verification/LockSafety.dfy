/** What the lock guarantees in every reachable state and along every run. */
module LockSafety {
  import opened Lock
  import opened LockInvariant

  // ---- Mutual exclusion ----

  lemma TwoInside(k: Tally, p: Pc, v: Shared)
    requires Counts(Plus(Plus(k, p), WIn), v)
    ensures p !in {WIn, RIn}
  {}

  lemma ExclusionFromInv(s: State, t: Thread, u: Thread)
    requires Inv(s)
    requires t in s.pc && u in s.pc && t != u && s.pc[t] == WIn
    ensures s.pc[u] !in {WIn, RIn}
  {
    hide Count, Counts, Plus;
    Pair(s.pc, t, u);
    TwoInside(Count(s.pc - {t} - {u}), s.pc[u], s.v);
  }

  /** A writer in its critical section is alone there. */
  lemma MutualExclusion(s: State, t: Thread, u: Thread)
    requires Reachable(s)
    requires t in s.pc && u in s.pc && t != u && s.pc[t] == WIn
    ensures s.pc[u] !in {WIn, RIn}
  {
    hide Inv, Reachable;
    ReachableInv(s);
    ExclusionFromInv(s, t, u);
  }

  // ---- Locks are only released while held ----

  lemma ReleaseCounts(k: Tally, p: Pc, v: Shared)
    requires Counts(Plus(k, p), v)
    ensures p in {WUnlock, XUnlock} ==> v.wMtx
    ensures p in {RUnlock, QUnlock} ==> v.rMtx
    ensures p in {WOpen, QOpen} ==> v.gMtx
    ensures p in {XPost, RPostShort} ==> v.shortwait == 0
    ensures p == RPostLong ==> v.longwait == 0
  {}

  /** Every mutex a thread unlocks is locked, every semaphore it posts is taken. */
  lemma ReleasesAreJustified(s: State, t: Thread)
    requires Reachable(s) && t in s.pc
    ensures s.pc[t] in {WUnlock, XUnlock} ==> s.v.wMtx
    ensures s.pc[t] in {RUnlock, QUnlock} ==> s.v.rMtx
    ensures s.pc[t] in {WOpen, QOpen} ==> s.v.gMtx
    ensures s.pc[t] in {XPost, RPostShort} ==> s.v.shortwait == 0
    ensures s.pc[t] == RPostLong ==> s.v.longwait == 0
  {
    hide Count, Counts, Plus, Reachable;
    ReachableInv(s);
    Single(s.pc, t);
    ReleaseCounts(Count(s.pc - {t}), s.pc[t], s.v);
  }

  // ---- Two waits that are never long ----

  lemma FirstReaderCounts(k: Tally, v: Shared)
    requires Counts(Plus(k, RGate), v)
    ensures !v.gMtx
  {}

  /** The first reader, which holds `shortwait` and `r_mtx`, finds `g_mtx` free. */
  lemma FirstReaderNeverWaits(s: State, t: Thread)
    requires Reachable(s) && t in s.pc && s.pc[t] == RGate
    ensures CanMove(s, t)
  {
    hide Count, Counts, Plus, Reachable;
    ReachableInv(s);
    Single(s.pc, t);
    FirstReaderCounts(Count(s.pc - {t}), s.v);
  }

  lemma LeavingCounts(k: Tally, p: Pc, v: Shared)
    requires Counts(Plus(Plus(k, p), XLock), v)
    ensures p !in {WJoin, WWait}
  {}

  /** While a writer waits for `shortwait` with `w_mtx` locked, no writer is on its way
      to `w_mtx` to leave. */
  lemma LeavingWriterNeverBehindWaiter(s: State, t: Thread, u: Thread)
    requires Reachable(s) && t in s.pc && u in s.pc && s.pc[t] == XLock
    ensures s.pc[u] !in {WJoin, WWait}
  {
    hide Count, Counts, Plus, Reachable;
    ReachableInv(s);
    if t != u {
      Pair(s.pc, t, u);
      LeavingCounts(Count(s.pc - {t} - {u}), s.pc[u], s.v);
    }
  }

  // ---- Writer preference ----

  /** From the first writer getting `shortwait` on, as long as some writer is counted. */
  ghost predicate WritersRule(s: State) {
    s.v.writers > 0 && WritersOwnShort(Count(s.pc), s.v)
  }

  lemma TakeoverCounts(k: Tally, v: Shared)
    requires Counts(Plus(k, WWait), v) && v.shortwait > 0
    ensures v.writers == 1 && WritersOwnShort(Plus(k, WUnlock), Effect(WWait, v))
  {}

  /** The first writer getting `shortwait` begins the writers' rule. */
  lemma FirstWriterTakesOver(s: State, s': State, t: Thread)
    requires Reachable(s) && Moves(s, s', t) && s.pc[t] == WWait
    ensures s'.v.writers == 1 && WritersRule(s')
  {
    hide Count, Counts, Plus, WritersOwnShort, Without, Reachable;
    ReachableInv(s);
    var k := s.pc - {t};
    Moved(s.pc, t, WUnlock);
    TakeoverCounts(Count(k), s.v);
  }

  lemma RuleCountsWriter(k: Tally, p: Pc, v: Shared)
    requires p in {WLock, WInc, WTest, WJoin, WWait, WUnlock, WGate, WIn, WOpen, XLock, XDec, XTest, XPost, XUnlock}
    requires Counts(Plus(k, p), v) && Passable(p, v)
    requires v.writers > 0 && WritersOwnShort(Plus(k, p), v)
    requires Effect(p, v).writers > 0
    ensures WritersOwnShort(Plus(k, Next(p, v)), Effect(p, v))
    ensures Effect(p, v).readcount <= v.readcount
  {}

  lemma RuleCountsEntering(k: Tally, p: Pc, v: Shared)
    requires p in {RLong, RJoin, RWait, RLock, RInc, RTest, RGate}
    requires Counts(Plus(k, p), v) && Passable(p, v)
    requires v.writers > 0 && WritersOwnShort(Plus(k, p), v)
    ensures WritersOwnShort(Plus(k, Next(p, v)), Effect(p, v))
    ensures Effect(p, v).readcount <= v.readcount
  {}

  lemma RuleCountsReading(k: Tally, p: Pc, v: Shared)
    requires p in {RUnlock, RPostShort, RPostLong, RIn, QLock, QDec, QTest, QOpen, QUnlock}
    requires Counts(Plus(k, p), v) && Passable(p, v)
    requires v.writers > 0 && WritersOwnShort(Plus(k, p), v)
    ensures WritersOwnShort(Plus(k, Next(p, v)), Effect(p, v))
    ensures Effect(p, v).readcount <= v.readcount
  {}

  lemma RuleCounts(k: Tally, p: Pc, v: Shared)
    requires p != Out && Counts(Plus(k, p), v) && Passable(p, v)
    requires v.writers > 0 && WritersOwnShort(Plus(k, p), v)
    requires Effect(p, v).writers > 0
    ensures WritersOwnShort(Plus(k, Next(p, v)), Effect(p, v))
    ensures Effect(p, v).readcount <= v.readcount
  {
    hide Counts, Plus, WritersOwnShort, Passable, Next, Effect;
    match p
    case WLock | WInc | WTest | WJoin | WWait | WUnlock | WGate
       | WIn | WOpen | XLock | XDec | XTest | XPost | XUnlock =>
      RuleCountsWriter(k, p, v);
    case RLong | RJoin | RWait | RLock | RInc | RTest | RGate => RuleCountsEntering(k, p, v);
    case RUnlock | RPostShort | RPostLong | RIn | QLock | QDec | QTest | QOpen | QUnlock => RuleCountsReading(k, p, v);
  }

  lemma RuleStarts(k: Tally, role: Role, v: Shared)
    requires v.writers > 0 && WritersOwnShort(Plus(k, Out), v)
    ensures WritersOwnShort(Plus(k, Entry(role)), v)
  {}

  /** While it lasts, the rule is kept by every step and admits no reader. */
  lemma RuleStep(s: State, s': State)
    requires Inv(s) && WritersRule(s) && Step(s, s') && s'.v.writers > 0
    ensures WritersRule(s') && s'.v.readcount <= s.v.readcount
  {
    hide Count, Counts, Plus, WritersOwnShort, Passable, Next, Effect, Requeue, Entry, Queued;
    var t :| StepOf(s, s', t);
    var k := s.pc - {t};
    if Moves(s, s', t) {
      Moved(s.pc, t, Next(s.pc[t], s.v));
      RuleCounts(Count(k), s.pc[t], s.v);
    } else {
      var role := if Starts(s, s', t, Reader) then Reader else Writer;
      Moved(s.pc, t, Entry(role));
      RuleStarts(Count(k), role, s.v);
    }
  }

  /** Writer preference, with no assumption about who is served first: from the moment
      the first writer has `shortwait` and as long as `writers` stays positive, however
      many writers join, `readcount` never grows. */
  lemma {:induction false} WriterPreference(run: seq<State>, i: nat, j: nat)
    requires IsRun(run) && Reachable(run[0]) && i <= j < |run|
    requires WritersRule(run[i])
    requires forall k | i <= k <= j :: run[k].v.writers > 0
    ensures WritersRule(run[j]) && run[j].v.readcount <= run[i].v.readcount
    decreases j
  {
    hide Inv, WritersRule, Step, Reachable;
    if i == j {
    } else {
      WriterPreference(run, i, j - 1);
      ReachableInv(run[0]);
      RunKeepsInv(run, j - 1);
      RuleStep(run[j - 1], run[j]);
    }
  }

  // ---- shortwait as a first-in first-out queue ----

  /** A step in which `shortwait` is only handed to the longest waiting thread. */
  ghost predicate FifoStep(s: State, s': State) {
    exists t :: StepOf(s, s', t)
      && (t in s.pc && s.pc[t] in {WWait, RWait} ==> s.queue != [] && s.queue[0] == t)
  }

  ghost predicate IsFifoRun(run: seq<State>) {
    && run != []
    && forall i | 0 <= i < |run| - 1 :: FifoStep(run[i], run[i + 1])
  }

  /** A reader stands in the queue before `w`. */
  ghost predicate ReaderAhead(s: State, w: Thread) {
    exists i, j :: 0 <= i < j < |s.queue| && s.queue[j] == w && s.queue[i] in s.pc && s.pc[s.queue[i]] == RWait
  }

  /** How many times `readcount` can still grow before `w` is served. */
  ghost function Budget(s: State, w: Thread): int {
    var c := Count(s.pc);
    c[RLock] + c[RInc] + (if ReaderAhead(s, w) then 1 else 0)
  }

  ghost predicate WriterWaits(s: State, w: Thread) {
    w in s.pc && s.pc[w] == WWait
  }

  /** The number of steps of a run that increase `readcount`. */
  ghost function Raises(run: seq<State>): nat {
    if |run| < 2 then 0
    else Raises(run[..|run| - 1]) + (if run[|run| - 1].v.readcount > run[|run| - 2].v.readcount then 1 else 0)
  }

  lemma LongReaderCounts(k: Tally, v: Shared)
    requires Counts(Plus(k, RWait), v)
    ensures Plus(k, RWait)[RLock] == 0 && Plus(k, RWait)[RInc] == 0
  {}

  lemma BudgetAtMostOne(s: State, w: Thread)
    requires Inv(s)
    ensures Budget(s, w) <= 1
  {
    hide Count;
    if ReaderAhead(s, w) {
      var i, j :| 0 <= i < j < |s.queue| && s.queue[j] == w && s.queue[i] in s.pc && s.pc[s.queue[i]] == RWait;
      var t := s.queue[i];
      Single(s.pc, t);
      LongReaderCounts(Count(s.pc - {t}), s.v);
    }
  }

  lemma BudgetCounts(k: Tally, p: Pc, v: Shared)
    requires p != WWait
    ensures var c, d := Plus(k, p), Plus(k, Next(p, v));
      d[RLock] + d[RInc] + (if Effect(p, v).readcount > v.readcount then 1 else 0)
      <= c[RLock] + c[RInc] + (if p == RWait then 1 else 0)
  {}

  lemma TwoWaitingReaders(k: Tally, v: Shared)
    ensures !Counts(Plus(Plus(k, RWait), RWait), v)
    ensures !Counts(Plus(Plus(k, WWait), WWait), v)
  {}

  /** A step that serves nobody puts no reader before `w`. */
  lemma AheadKept(s: State, s': State, t: Thread, p: Pc, w: Thread)
    requires Queued(s) && Queued(s') && WriterWaits(s, w) && WriterWaits(s', w)
    requires t in s.pc && s.pc[t] !in {WWait, RWait}
    requires s'.pc == s.pc[t := p]
    requires s'.queue == s.queue || s'.queue == s.queue + [t]
    ensures ReaderAhead(s', w) ==> ReaderAhead(s, w)
  {
    if ReaderAhead(s', w) {
      var i, j :| 0 <= i < j < |s'.queue| && s'.queue[j] == w && s'.queue[i] in s'.pc && s'.pc[s'.queue[i]] == RWait;
      assert w in s.queue && w != t;
      assert t !in s.queue;
      assert s.queue[i] == s'.queue[i] && s.queue[j] == w;
    }
  }

  /** Serving a reader uses up the only place before `w`. */
  lemma AheadServed(s: State, s': State, t: Thread, w: Thread)
    requires Inv(s) && WriterWaits(s, w) && s.queue != [] && s.queue[0] == t
    requires t in s.pc && s.pc[t] == RWait && s'.pc == s.pc[t := RLock]
    ensures ReaderAhead(s, w) && !ReaderAhead(s', w)
  {
    hide Count, Counts, Plus;
    assert w in s.queue;
    var j :| 0 <= j < |s.queue| && s.queue[j] == w;
    assert ReaderAhead(s, w);
    if u :| u in s'.pc && s'.pc[u] == RWait {
      Pair(s.pc, t, u);
      TwoWaitingReaders(Count(s.pc - {t} - {u}), s.v);
    }
  }

  lemma OnlyWaitingWriter(s: State, t: Thread, w: Thread)
    requires Inv(s) && WriterWaits(s, w) && WriterWaits(s, t)
    ensures t == w
  {
    hide Count, Counts, Plus;
    if t != w {
      Pair(s.pc, t, w);
      TwoWaitingReaders(Count(s.pc - {t} - {w}), s.v);
    }
  }

  lemma BudgetStep(s: State, s': State, w: Thread)
    requires Reachable(s) && FifoStep(s, s') && WriterWaits(s, w) && WriterWaits(s', w)
    ensures Budget(s', w) + (if s'.v.readcount > s.v.readcount then 1 else 0) <= Budget(s, w)
  {
    hide Count, Counts, Plus, Passable, Effect, ReaderAhead, Queued, Without, Reachable;
    ReachableInv(s);
    var t :| StepOf(s, s', t)
      && (t in s.pc && s.pc[t] in {WWait, RWait} ==> s.queue != [] && s.queue[0] == t);
    var p := s.pc[t];
    var p' := s'.pc[t];
    var k := s.pc - {t};
    Moved(s.pc, t, p');
    assert Inv(s') by { assert Step(s, s'); StepKeepsInv(s, s'); }
    if Starts(s, s', t, Reader) || Starts(s, s', t, Writer) {
      EntryCounts(Count(k), p');
      AheadKept(s, s', t, p', w);
    } else if p == WWait {
      OnlyWaitingWriter(s, t, w);
    } else {
      BudgetCounts(Count(k), p, s.v);
      if p == RWait {
        AheadServed(s, s', t, w);
      } else {
        AheadKept(s, s', t, p', w);
      }
    }
  }

  lemma EntryCounts(k: Tally, p: Pc)
    requires p == RLong || p == WLock
    ensures Plus(k, p)[RLock] + Plus(k, p)[RInc] == Plus(k, Out)[RLock] + Plus(k, Out)[RInc]
  {}

  lemma {:induction false} BudgetRun(run: seq<State>, w: Thread)
    requires IsFifoRun(run) && Reachable(run[0])
    requires forall i | 0 <= i < |run| :: WriterWaits(run[i], w)
    ensures Reachable(run[|run| - 1]) && Raises(run) + Budget(run[|run| - 1], w) <= Budget(run[0], w)
  {
    hide Reachable, StepOf, FifoStep, WriterWaits, Budget;
    if |run| == 1 {
    } else {
      var n := |run| - 1;
      var front := run[..n];
      assert forall i | 0 <= i < |front| :: front[i] == run[i];
      BudgetRun(front, w);
      assert FifoStep(run[n - 1], run[n]);
      BudgetStep(run[n - 1], run[n], w);
      FifoStepReaches(run[n - 1], run[n]);
    }
  }

  lemma FifoStepReaches(s: State, s': State)
    requires Reachable(s) && FifoStep(s, s')
    ensures Reachable(s')
  {
    hide StepOf, Reachable;
    var t :| StepOf(s, s', t);
    StepReaches(s, s', t);
  }

  /** Each step that raises `readcount` is one of those counted. */
  lemma {:induction false} RaisesCounted(run: seq<State>, i: nat, j: nat)
    requires i < j < |run| - 1
    ensures run[i + 1].v.readcount > run[i].v.readcount ==> Raises(run) >= 1
    ensures run[i + 1].v.readcount > run[i].v.readcount && run[j + 1].v.readcount > run[j].v.readcount ==>
      Raises(run) >= 2
  {
    var front := run[..|run| - 1];
    assert forall k | 0 <= k < |front| :: front[k] == run[k];
    if j == |run| - 2 {
      OneRaiseCounted(front, i);
    } else {
      RaisesCounted(front, i, j);
    }
  }

  lemma {:induction false} OneRaiseCounted(run: seq<State>, i: nat)
    requires i < |run| - 1
    ensures run[i + 1].v.readcount > run[i].v.readcount ==> Raises(run) >= 1
  {
    var front := run[..|run| - 1];
    assert forall k | 0 <= k < |front| :: front[k] == run[k];
    if i == |run| - 2 {
    } else {
      OneRaiseCounted(front, i);
    }
  }

  /** With `shortwait` served in arrival order, at most one reader raises `readcount`
      while a writer stands in the queue for `shortwait`. */
  lemma AtMostOneReaderOvertakes(run: seq<State>, w: Thread)
    requires IsFifoRun(run) && Reachable(run[0])
    requires forall i | 0 <= i < |run| :: WriterWaits(run[i], w)
    ensures Raises(run) <= 1
    ensures forall i, j | 0 <= i < j < |run| - 1 ::
      !(run[i + 1].v.readcount > run[i].v.readcount && run[j + 1].v.readcount > run[j].v.readcount)
  {
    hide Inv, FifoStep, WriterWaits, Reachable, Raises;
    BudgetRun(run, w);
    ReachableInv(run[0]);
    BudgetAtMostOne(run[0], w);
    BudgetNonNegative(run[|run| - 1], w);
    forall i, j | 0 <= i < j < |run| - 1
      ensures !(run[i + 1].v.readcount > run[i].v.readcount && run[j + 1].v.readcount > run[j].v.readcount)
    {
      RaisesCounted(run, i, j);
    }
  }

  lemma BudgetNonNegative(s: State, w: Thread)
    ensures Budget(s, w) >= 0
  {}
}
