/** The inductive invariant of the lock. It ties each global variable to the number of
    threads standing at each program point. */
module LockInvariant {
  import opened Lock
  import opened Sums

  /** How many threads stand at each point. */
  type Tally = multiset<Pc>

  /** One more thread at `p`. */
  function Plus(c: Tally, p: Pc): Tally {
    c[p := c[p] + 1]
  }

  /** The threads at each point, counted in any order. */
  ghost function {:induction false} Count(pc: map<Thread, Pc>): Tally
    decreases |pc|
  {
    if pc == map[] then multiset{}
    else
      var t :| t in pc;
      assert |pc - {t}| < |pc| by { Smaller(pc, t); }
      Plus(Count(pc - {t}), pc[t])
  }

  /** Threads inside a section protected by `w_mtx`. */
  ghost function WSection(c: Tally): int {
    c[WInc] + c[WTest] + c[WJoin] + c[WWait] + c[WUnlock] + c[XDec] + c[XTest] + c[XPost] + c[XUnlock]
  }

  /** Threads inside a section protected by `r_mtx`. */
  ghost function RSection(c: Tally): int {
    c[RInc] + c[RTest] + c[RGate] + c[RUnlock] + c[QDec] + c[QTest] + c[QOpen] + c[QUnlock]
  }

  /** Writers between their increment and their decrement. */
  ghost function CountedWriters(c: Tally): int {
    c[WTest] + c[WJoin] + c[WWait] + c[WUnlock] + c[WGate] + c[WIn] + c[WOpen] + c[XLock] + c[XDec]
  }

  /** Readers between their increment and their decrement. */
  ghost function CountedReaders(c: Tally): int {
    c[RTest] + c[RGate] + c[RUnlock] + c[RPostShort] + c[RPostLong] + c[RIn] + c[QLock] + c[QDec]
  }

  /** Readers that got `shortwait` and have not posted it. */
  ghost function ShortReaders(c: Tally): int {
    c[RLock] + c[RInc] + c[RTest] + c[RGate] + c[RUnlock] + c[RPostShort]
  }

  /** Readers that got `longwait` and have not posted it. */
  ghost function LongReaders(c: Tally): int {
    c[RJoin] + c[RWait] + ShortReaders(c) + c[RPostLong]
  }

  /** The writers as a group own `shortwait`: from the first one getting it to the last
      one posting it, whichever threads those are. */
  ghost predicate WritersOwnShort(c: Tally, v: Shared) {
    if v.writers == 0 then c[XTest] + c[XPost] > 0
    else c[WJoin] + c[WWait] == 0 && !(v.writers == 1 && c[WTest] > 0)
  }

  /** The readers as a group own `g_mtx`: from the first one locking it to the last one
      unlocking it, whichever threads those are. */
  ghost predicate ReadersOwnGate(c: Tally, v: Shared) {
    if v.readcount == 0 then c[QTest] + c[QOpen] > 0
    else c[RGate] == 0 && !(v.readcount == 1 && c[RTest] > 0)
  }

  ghost predicate Counters(c: Tally, v: Shared) {
    v.writers == CountedWriters(c) && v.readcount == CountedReaders(c)
  }

  ghost predicate Mutexes(c: Tally, v: Shared) {
    && (if v.wMtx then 1 else 0) == WSection(c)
    && (if v.rMtx then 1 else 0) == RSection(c)
    && (if v.gMtx then 1 else 0) == c[WIn] + c[WOpen] + (if ReadersOwnGate(c, v) then 1 else 0)
  }

  ghost predicate Semaphores(c: Tally, v: Shared) {
    && v.longwait >= 0 && v.longwait + LongReaders(c) == 1
    && v.shortwait >= 0 && v.shortwait + ShortReaders(c) + (if WritersOwnShort(c, v) then 1 else 0) == 1
  }

  /** What a thread read from a counter stays true while it acts on it. */
  ghost predicate Decisions(c: Tally, v: Shared) {
    && (c[WJoin] + c[WWait] > 0 ==> v.writers == 1)
    && (c[XPost] > 0 ==> v.writers == 0)
    && (c[RGate] > 0 ==> v.readcount == 1)
    && (c[QOpen] > 0 ==> v.readcount == 0)
  }

  ghost predicate Counts(c: Tally, v: Shared) {
    Counters(c, v) && Mutexes(c, v) && Semaphores(c, v) && Decisions(c, v)
  }

  lemma WriterLocks(k: Tally, p: Pc, v: Shared)
    requires p in {WLock, WInc}
    requires Counts(Plus(k, p), v) && Passable(p, v)
    ensures Counts(Plus(k, Next(p, v)), Effect(p, v))
  {}

  lemma WriterTests(k: Tally, p: Pc, v: Shared)
    requires p in {WTest, WJoin}
    requires Counts(Plus(k, p), v) && Passable(p, v)
    ensures Counts(Plus(k, Next(p, v)), Effect(p, v))
  {}

  lemma WriterPasses(k: Tally, p: Pc, v: Shared)
    requires p in {WWait, WUnlock}
    requires Counts(Plus(k, p), v) && Passable(p, v)
    ensures Counts(Plus(k, Next(p, v)), Effect(p, v))
  {}

  lemma WriterGoesIn(k: Tally, p: Pc, v: Shared)
    requires p in {WGate, WIn}
    requires Counts(Plus(k, p), v) && Passable(p, v)
    ensures Counts(Plus(k, Next(p, v)), Effect(p, v))
  {}

  lemma WriterOpens(k: Tally, p: Pc, v: Shared)
    requires p in {WOpen, XLock}
    requires Counts(Plus(k, p), v) && Passable(p, v)
    ensures Counts(Plus(k, Next(p, v)), Effect(p, v))
  {}

  lemma WriterUncounts(k: Tally, p: Pc, v: Shared)
    requires p in {XDec, XTest}
    requires Counts(Plus(k, p), v) && Passable(p, v)
    ensures Counts(Plus(k, Next(p, v)), Effect(p, v))
  {}

  lemma WriterLeaves(k: Tally, p: Pc, v: Shared)
    requires p in {XPost, XUnlock}
    requires Counts(Plus(k, p), v) && Passable(p, v)
    ensures Counts(Plus(k, Next(p, v)), Effect(p, v))
  {}

  lemma ReaderQueues(k: Tally, p: Pc, v: Shared)
    requires p in {RLong, RJoin}
    requires Counts(Plus(k, p), v) && Passable(p, v)
    ensures Counts(Plus(k, Next(p, v)), Effect(p, v))
  {}

  lemma ReaderIsServed(k: Tally, p: Pc, v: Shared)
    requires p == RWait
    requires Counts(Plus(k, p), v) && Passable(p, v)
    ensures Counts(Plus(k, Next(p, v)), Effect(p, v))
  {}

  lemma ReaderCounts(k: Tally, p: Pc, v: Shared)
    requires p in {RLock, RInc}
    requires Counts(Plus(k, p), v) && Passable(p, v)
    ensures Counts(Plus(k, Next(p, v)), Effect(p, v))
  {}

  lemma ReaderTests(k: Tally, p: Pc, v: Shared)
    requires p in {RTest, RGate}
    requires Counts(Plus(k, p), v) && Passable(p, v)
    ensures Counts(Plus(k, Next(p, v)), Effect(p, v))
  {}

  lemma ReaderPosts(k: Tally, p: Pc, v: Shared)
    requires p in {RUnlock, RPostShort}
    requires Counts(Plus(k, p), v) && Passable(p, v)
    ensures Counts(Plus(k, Next(p, v)), Effect(p, v))
  {}

  lemma ReaderGoesIn(k: Tally, p: Pc, v: Shared)
    requires p == RPostLong
    requires Counts(Plus(k, p), v) && Passable(p, v)
    ensures Counts(Plus(k, Next(p, v)), Effect(p, v))
  {}

  lemma ReaderGoesOut(k: Tally, p: Pc, v: Shared)
    requires p == RIn
    requires Counts(Plus(k, p), v) && Passable(p, v)
    ensures Counts(Plus(k, Next(p, v)), Effect(p, v))
  {}

  lemma ReaderUncounts(k: Tally, p: Pc, v: Shared)
    requires p in {QLock, QDec}
    requires Counts(Plus(k, p), v) && Passable(p, v)
    ensures Counts(Plus(k, Next(p, v)), Effect(p, v))
  {}

  lemma ReaderTestsLast(k: Tally, p: Pc, v: Shared)
    requires p in {QTest}
    requires Counts(Plus(k, p), v) && Passable(p, v)
    ensures Counts(Plus(k, Next(p, v)), Effect(p, v))
  {}

  lemma ReaderLeaves(k: Tally, p: Pc, v: Shared)
    requires p in {QOpen, QUnlock}
    requires Counts(Plus(k, p), v) && Passable(p, v)
    ensures Counts(Plus(k, Next(p, v)), Effect(p, v))
  {}

  lemma PlusCommutes(c: Tally, p: Pc, q: Pc)
    ensures Plus(Plus(c, p), q) == Plus(Plus(c, q), p)
  {}

  /** Singling out one thread. */
  lemma {:induction false} Single(pc: map<Thread, Pc>, t: Thread)
    requires t in pc
    ensures Count(pc) == Plus(Count(pc - {t}), pc[t])
    decreases |pc|
  {
    hide Plus;
    var u :| u in pc && Count(pc) == Plus(Count(pc - {u}), pc[u]);
    if u != t {
      Smaller(pc, u);
      Smaller(pc, t);
      Single(pc - {u}, t);
      Single(pc - {t}, u);
      assert pc - {u} - {t} == pc - {t} - {u};
      PlusCommutes(Count(pc - {u} - {t}), pc[t], pc[u]);
    }
  }

  /** Where thread `t` moves from one point to another, the rest stays. */
  lemma Moved(pc: map<Thread, Pc>, t: Thread, p: Pc)
    requires t in pc
    ensures Count(pc) == Plus(Count(pc - {t}), pc[t]) && Count(pc[t := p]) == Plus(Count(pc - {t}), p)
  {
    hide Count, Plus;
    Single(pc, t);
    Single(pc[t := p], t);
    assert pc[t := p] - {t} == pc - {t};
  }

  lemma Pair(pc: map<Thread, Pc>, t: Thread, u: Thread)
    requires t in pc && u in pc && t != u
    ensures Count(pc) == Plus(Plus(Count(pc - {t} - {u}), pc[u]), pc[t])
  {
    hide Count, Plus;
    Single(pc, t);
    Single(pc - {t}, u);
  }

  lemma KeepsCounts(k: Tally, p: Pc, v: Shared)
    requires p != Out && Counts(Plus(k, p), v) && Passable(p, v)
    ensures Counts(Plus(k, Next(p, v)), Effect(p, v))
  {
    match p
    case WLock | WInc => WriterLocks(k, p, v);
    case WTest | WJoin => WriterTests(k, p, v);
    case WWait | WUnlock => WriterPasses(k, p, v);
    case WGate | WIn => WriterGoesIn(k, p, v);
    case WOpen | XLock => WriterOpens(k, p, v);
    case XDec | XTest => WriterUncounts(k, p, v);
    case XPost | XUnlock => WriterLeaves(k, p, v);
    case RLong | RJoin => ReaderQueues(k, p, v);
    case RWait => ReaderIsServed(k, p, v);
    case RLock | RInc => ReaderCounts(k, p, v);
    case RTest | RGate => ReaderTests(k, p, v);
    case RUnlock | RPostShort => ReaderPosts(k, p, v);
    case RPostLong => ReaderGoesIn(k, p, v);
    case RIn => ReaderGoesOut(k, p, v);
    case QLock | QDec => ReaderUncounts(k, p, v);
    case QTest => ReaderTestsLast(k, p, v);
    case QOpen | QUnlock => ReaderLeaves(k, p, v);
  }

  predicate Distinct(q: seq<Thread>) {
    forall i, j | 0 <= i < j < |q| :: q[i] != q[j]
  }

  /** The queue holds exactly the threads waiting for `shortwait`, each once. */
  ghost predicate Queued(s: State) {
    && Distinct(s.queue)
    && (forall t :: t in s.queue <==> t in s.pc && s.pc[t] in {WWait, RWait})
  }

  ghost predicate Inv(s: State) {
    Counts(Count(s.pc), s.v) && Queued(s)
  }

  lemma {:induction false} WithoutSpec(q: seq<Thread>, t: Thread)
    requires Distinct(q)
    ensures Distinct(Without(q, t))
    ensures forall u :: u in Without(q, t) <==> u in q && u != t
  {
    if q == [] {
    } else {
      var tail := q[1..];
      assert q == [q[0]] + tail;
      WithoutSpec(tail, t);
      if q[0] != t {
        var r := Without(q, t);
        forall i, j | 0 <= i < j < |r| ensures r[i] != r[j] {
          assert r[j] == Without(tail, t)[j - 1] && r[j] in Without(tail, t);
        }
      }
    }
  }

  lemma MoveKeepsQueue(s: State, s': State, t: Thread)
    requires Queued(s) && Moves(s, s', t)
    ensures Queued(s')
  {
    WithoutSpec(s.queue, t);
  }

  lemma MoveKeepsInv(s: State, s': State, t: Thread)
    requires Inv(s) && Moves(s, s', t)
    ensures Inv(s')
  {
    hide Count, Plus, Counts, Queued, Next, Effect, Requeue, Passable;
    var p, k := s.pc[t], s.pc - {t};
    Moved(s.pc, t, Next(p, s.v));
    KeepsCounts(Count(k), p, s.v);
    MoveKeepsQueue(s, s', t);
  }

  lemma StartKeepsInv(s: State, s': State, t: Thread, role: Role)
    requires Inv(s) && Starts(s, s', t, role)
    ensures Inv(s')
  {
    hide Count;
    Moved(s.pc, t, Entry(role));
  }

  /** Every thread is out. */
  ghost predicate Nobody(c: Tally) {
    forall p | p != Out :: c[p] == 0
  }

  lemma {:induction false} AllOut(pc: map<Thread, Pc>)
    requires forall t | t in pc :: pc[t] == Out
    ensures Nobody(Count(pc))
    decreases |pc|
  {
    if pc == map[] {
    } else {
      var t :| t in pc;
      Smaller(pc, t);
      Single(pc, t);
      AllOut(pc - {t});
    }
  }

  lemma NobodyCounts(c: Tally, v: Shared)
    requires Nobody(c) && v == Shared(false, false, false, 1, 1, 0, 0)
    ensures Counts(c, v)
  {}

  lemma InitialInv(s: State)
    requires Initial(s)
    ensures Inv(s)
  {
    hide Count, Counts, Nobody;
    AllOut(s.pc);
    NobodyCounts(Count(s.pc), s.v);
  }

  lemma StepKeepsInv(s: State, s': State)
    requires Inv(s) && Step(s, s')
    ensures Inv(s')
  {
    hide Inv, Advance, Start;
    var t :| StepOf(s, s', t);
    if Moves(s, s', t) {
      MoveKeepsInv(s, s', t);
    } else {
      StartKeepsInv(s, s', t, if Starts(s, s', t, Reader) then Reader else Writer);
    }
  }

  lemma {:induction false} RunKeepsInv(run: seq<State>, i: nat)
    requires IsRun(run) && Inv(run[0]) && i < |run|
    ensures Inv(run[i])
  {
    hide Inv, Step;
    if i == 0 {
    } else {
      RunKeepsInv(run, i - 1);
      StepKeepsInv(run[i - 1], run[i]);
    }
  }

  /** The invariant holds in every reachable state. */
  lemma ReachableInv(s: State)
    requires Reachable(s)
    ensures Inv(s)
  {
    hide Inv, Initial, Step;
    var run :| IsRun(run) && Initial(run[0]) && run[|run| - 1] == s;
    InitialInv(run[0]);
    RunKeepsInv(run, |run| - 1);
  }

  lemma StepReaches(s: State, s': State, t: Thread)
    requires Reachable(s) && StepOf(s, s', t)
    ensures Reachable(s')
  {
    hide StepOf, Initial;
    var run :| IsRun(run) && Initial(run[0]) && run[|run| - 1] == s;
    assert Step(s, s');
    var longer := run + [s'];
    assert IsRun(longer) && longer[0] == run[0] && longer[|longer| - 1] == s';
  }

  /** Who is counted at a point is there. */
  lemma {:induction false} Present(pc: map<Thread, Pc>, p: Pc)
    requires Count(pc)[p] > 0
    ensures exists t :: t in pc && pc[t] == p
    decreases |pc|
  {
    if pc == map[] {
    } else {
      var t :| t in pc;
      Single(pc, t);
      if pc[t] != p {
        Smaller(pc, t);
        Present(pc - {t}, p);
        var u :| u in pc - {t} && (pc - {t})[u] == p;
        assert u in pc && pc[u] == p;
      }
    }
  }

  // ---- The counters in terms of threads ----

  predicate CountedWriter(p: Pc) {
    p in {WTest, WJoin, WWait, WUnlock, WGate, WIn, WOpen, XLock, XDec}
  }

  predicate CountedReader(p: Pc) {
    p in {RTest, RGate, RUnlock, RPostShort, RPostLong, RIn, QLock, QDec}
  }

  ghost function WritersOf(pc: map<Thread, Pc>): set<Thread> {
    set t | t in pc && CountedWriter(pc[t])
  }

  ghost function ReadersOf(pc: map<Thread, Pc>): set<Thread> {
    set t | t in pc && CountedReader(pc[t])
  }

  lemma CountedPlus(k: Tally, p: Pc)
    ensures CountedWriters(Plus(k, p)) == CountedWriters(k) + (if CountedWriter(p) then 1 else 0)
    ensures CountedReaders(Plus(k, p)) == CountedReaders(k) + (if CountedReader(p) then 1 else 0)
  {}

  lemma {:induction false} CountedThreads(pc: map<Thread, Pc>)
    ensures CountedWriters(Count(pc)) == |WritersOf(pc)| && CountedReaders(Count(pc)) == |ReadersOf(pc)|
    decreases |pc|
  {
    hide Plus, CountedWriter, CountedReader;
    if pc == map[] {
      assert WritersOf(pc) == {} && ReadersOf(pc) == {};
    } else {
      hide Count, CountedWriters, CountedReaders;
      var t :| t in pc;
      var rest := pc - {t};
      Smaller(pc, t);
      Single(pc, t);
      CountedThreads(rest);
      CountedPlus(Count(rest), pc[t]);
      assert WritersOf(pc) == if CountedWriter(pc[t]) then WritersOf(rest) + {t} else WritersOf(rest);
      assert ReadersOf(pc) == if CountedReader(pc[t]) then ReadersOf(rest) + {t} else ReadersOf(rest);
    }
  }

  /** In every reachable state `writers` is the number of threads between the increment
      and the decrement of `writers`, and likewise for `readcount`. */
  lemma CountersCountThreads(s: State)
    requires Reachable(s)
    ensures s.v.writers == |WritersOf(s.pc)| && s.v.readcount == |ReadersOf(s.pc)|
  {
    hide Reachable, Count, CountedWriters, CountedReaders, Mutexes, Semaphores, Decisions, Queued;
    ReachableInv(s);
    CountedThreads(s.pc);
  }
}
