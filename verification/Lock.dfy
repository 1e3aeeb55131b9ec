/** The reader/writer lock: two counters, three mutexes, two semaphores, and any
    number of threads, each stopped in front of one pthread or semaphore call, one
    counter update or one test. A step of the system is one such action of one thread. */
module Lock {

  type Thread = nat

  datatype Role = Reader | Writer

  /** Where a thread stands: the action it performs next. `sem_wait(&shortwait)` is
      two actions, joining the queue and getting the semaphore. */
  datatype Pc =
    | Out
    // enter_writer
    | WLock | WInc | WTest | WJoin | WWait | WUnlock | WGate
    | WIn
    // leave_writer
    | WOpen | XLock | XDec | XTest | XPost | XUnlock
    // enter_reader
    | RLong | RJoin | RWait | RLock | RInc | RTest | RGate | RUnlock | RPostShort | RPostLong
    | RIn
    // leave_reader
    | QLock | QDec | QTest | QOpen | QUnlock

  /** The global variables. A mutex is only a flag: nothing records who locked it. That
      every unlock is justified is something the invariant has to establish. */
  datatype Shared = Shared(
    wMtx: bool, rMtx: bool, gMtx: bool,
    shortwait: int, longwait: int,
    writers: int, readcount: int)

  /** `queue` is the order in which the threads now waiting for `shortwait` arrived. */
  datatype State = State(pc: map<Thread, Pc>, v: Shared, queue: seq<Thread>)

  predicate Initial(s: State) {
    && (forall t | t in s.pc :: s.pc[t] == Out)
    && s.v == Shared(false, false, false, 1, 1, 0, 0)
    && s.queue == []
  }

  /** Whether the action at `p` does not block. */
  predicate Passable(p: Pc, v: Shared) {
    match p
    case WLock | XLock => !v.wMtx
    case RLock | QLock => !v.rMtx
    case WGate | RGate => !v.gMtx
    case WWait | RWait => v.shortwait > 0
    case RLong => v.longwait > 0
    case _ => true
  }

  /** What the action at `p` does to the global variables. */
  function Effect(p: Pc, v: Shared): Shared {
    match p
    case WLock | XLock => v.(wMtx := true)
    case WUnlock | XUnlock => v.(wMtx := false)
    case RLock | QLock => v.(rMtx := true)
    case RUnlock | QUnlock => v.(rMtx := false)
    case WGate | RGate => v.(gMtx := true)
    case WOpen | QOpen => v.(gMtx := false)
    case WWait | RWait => v.(shortwait := v.shortwait - 1)
    case XPost | RPostShort => v.(shortwait := v.shortwait + 1)
    case RLong => v.(longwait := v.longwait - 1)
    case RPostLong => v.(longwait := v.longwait + 1)
    case WInc => v.(writers := v.writers + 1)
    case XDec => v.(writers := v.writers - 1)
    case RInc => v.(readcount := v.readcount + 1)
    case QDec => v.(readcount := v.readcount - 1)
    case _ => v
  }

  /** Where the action at `p` leads. */
  function Next(p: Pc, v: Shared): Pc {
    match p
    case Out => Out
    case WLock => WInc
    case WInc => WTest
    case WTest => if v.writers == 1 then WJoin else WUnlock
    case WJoin => WWait
    case WWait => WUnlock
    case WUnlock => WGate
    case WGate => WIn
    case WIn => WOpen
    case WOpen => XLock
    case XLock => XDec
    case XDec => XTest
    case XTest => if v.writers == 0 then XPost else XUnlock
    case XPost => XUnlock
    case XUnlock => Out
    case RLong => RJoin
    case RJoin => RWait
    case RWait => RLock
    case RLock => RInc
    case RInc => RTest
    case RTest => if v.readcount == 1 then RGate else RUnlock
    case RGate => RUnlock
    case RUnlock => RPostShort
    case RPostShort => RPostLong
    case RPostLong => RIn
    case RIn => QLock
    case QLock => QDec
    case QDec => QTest
    case QTest => if v.readcount == 0 then QOpen else QUnlock
    case QOpen => QUnlock
    case QUnlock => Out
  }

  function Without(q: seq<Thread>, t: Thread): seq<Thread> {
    if q == [] then [] else if q[0] == t then q[1..] else [q[0]] + Without(q[1..], t)
  }

  function Requeue(p: Pc, q: seq<Thread>, t: Thread): seq<Thread> {
    match p
    case WJoin | RJoin => q + [t]
    case WWait | RWait => Without(q, t)
    case _ => q
  }

  /** `enter_critical`: the thread commits itself to one of the two procedures. */
  function Entry(role: Role): Pc {
    if role == Reader then RLong else WLock
  }

  function Start(s: State, t: Thread, role: Role): State {
    s.(pc := s.pc[t := Entry(role)])
  }

  function Advance(s: State, t: Thread): State
    requires t in s.pc
  {
    var p := s.pc[t];
    State(s.pc[t := Next(p, s.v)], Effect(p, s.v), Requeue(p, s.queue, t))
  }

  predicate Starts(s: State, s': State, t: Thread, role: Role) {
    t in s.pc && s.pc[t] == Out && s' == Start(s, t, role)
  }

  predicate CanMove(s: State, t: Thread) {
    t in s.pc && s.pc[t] != Out && Passable(s.pc[t], s.v)
  }

  predicate Moves(s: State, s': State, t: Thread) {
    CanMove(s, t) && s' == Advance(s, t)
  }

  predicate StepOf(s: State, s': State, t: Thread) {
    Moves(s, s', t) || Starts(s, s', t, Reader) || Starts(s, s', t, Writer)
  }

  ghost predicate Step(s: State, s': State) {
    exists t :: StepOf(s, s', t)
  }

  ghost predicate IsRun(run: seq<State>) {
    && run != []
    && forall i | 0 <= i < |run| - 1 :: Step(run[i], run[i + 1])
  }

  ghost predicate Reachable(s: State) {
    exists run :: IsRun(run) && Initial(run[0]) && run[|run| - 1] == s
  }
}
