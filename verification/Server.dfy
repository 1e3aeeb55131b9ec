/** The concurrent server: any number of client threads, each taking a request through the
    lock, its handler and its reply. Lock actions, queries, statements and the packets of
    replies of different threads interleave freely. */
module Server {
  import opened Database
  import opened Service
  import opened Lock
  import Transfer

  /** `get_synchro_type`. The list of cancelled tickets has no case of its own there. */
  function SyncRole(req: Request): Role {
    match req
    case AddMovie(_, _) | DeleteMovie(_) | AddScreening(_, _, _, _, _) | DeleteScreening(_) => Writer
    case MakeReservation(_, _, _) | CancelReservation(_, _, _) => Writer
    case ListScreenings(_) | ShowSeats(_) | ListMovies | ListReservations(_) => Reader
    case ListCancelled(_) => Writer
  }

  /** How far the handler of a request is. */
  datatype Phase =
    | Fresh
    | Checked(found: bool)
    | HalfDone            // the first statement of a cancellation is executed
    | Decided(reply: Reply)
    | Sending(reply: Reply, left: nat)  // inside a list transfer, waiting for the peer
    | Answered(reply: Reply)

  /** The reply is determined. */
  predicate Settled(phase: Phase) {
    phase.Decided? || phase.Sending? || phase.Answered?
  }

  predicate IsList(reply: Reply) {
    reply.Screenings? || reply.Movies? || reply.Tickets?
  }

  function ListLength(reply: Reply): nat {
    match reply
    case Screenings(screenings) => |screenings|
    case Movies(movies) => |movies|
    case Tickets(tickets) => |tickets|
    case _ => 0
  }

  datatype Job = Idle | Job(id: nat, req: Request, phase: Phase)

  /** What clients see: a request arriving and the last packet of its reply being sent. */
  datatype Event = Invoke(id: nat, req: Request) | Respond(id: nat, reply: Reply)

  /** `lin` is bookkeeping only, no step depends on it: the requests in the order in
      which their replies were determined. */
  datatype Sys = Sys(lock: State, db: Tables, jobs: map<Thread, Job>, next: nat, hist: seq<Event>, lin: seq<Op>)

  predicate Inside(s: Sys, t: Thread) {
    t in s.lock.pc && t in s.jobs && s.jobs[t].Job? && s.lock.pc[t] in {WIn, RIn}
  }

  function WithPhase(s: Sys, t: Thread, phase: Phase): Sys
    requires t in s.jobs && s.jobs[t].Job?
  {
    s.(jobs := s.jobs[t := s.jobs[t].(phase := phase)])
  }

  /** The reply of the request is now determined. */
  function Decide(s: Sys, t: Thread, reply: Reply): Sys
    requires t in s.jobs && s.jobs[t].Job?
  {
    WithPhase(s, t, Decided(reply)).(lin := s.lin + [Op(s.jobs[t].id, s.jobs[t].req, reply)])
  }

  /** The last packet of the reply goes out. */
  function Answer(s: Sys, t: Thread, reply: Reply): Sys
    requires t in s.jobs && s.jobs[t].Job?
  {
    WithPhase(s, t, Answered(reply)).(hist := s.hist + [Respond(s.jobs[t].id, reply)])
  }

  // ---- Steps of thread t ----

  predicate Receives(s: Sys, s': Sys, t: Thread, req: Request) {
    && t in s.jobs && s.jobs[t].Idle? && t in s.lock.pc && s.lock.pc[t] == Out
    && s' == s.(lock := Start(s.lock, t, SyncRole(req)),
                jobs := s.jobs[t := Job(s.next, req, Fresh)],
                next := s.next + 1,
                hist := s.hist + [Invoke(s.next, req)])
  }

  /** A lock action. `leave_critical` is called only after the reply was sent. */
  predicate Locks(s: Sys, s': Sys, t: Thread) {
    && t in s.jobs && CanMove(s.lock, t)
    && (s.lock.pc[t] in {WIn, RIn} ==> s.jobs[t].Job? && s.jobs[t].phase.Answered?)
    && var lock' := Advance(s.lock, t);
       s' == s.(lock := lock', jobs := if lock'.pc[t] == Out then s.jobs[t := Idle] else s.jobs)
  }

  predicate ChecksExistence(s: Sys, s': Sys, t: Thread) {
    && Inside(s, t)
    && var j := s.jobs[t];
       j.phase.Fresh? && NeedsCheck(j.req) && s' == WithPhase(s, t, Checked(Check(s.db, j.req)))
  }

  predicate Refuses(s: Sys, s': Sys, t: Thread) {
    && Inside(s, t)
    && s.jobs[t].phase == Checked(false)
    && s' == Decide(s, t, Error(NoSuchElement))
  }

  predicate Executes(s: Sys, s': Sys, t: Thread) {
    && Inside(s, t)
    && var j := s.jobs[t];
       && !IsQuery(j.req)
       && (if NeedsCheck(j.req) then j.phase == Checked(true) else j.phase.Fresh?)
       && var e := First(s.db, j.req);
          s' == (if j.req.CancelReservation? && e.outcome == Done then WithPhase(s, t, HalfDone)
                 else Decide(s, t, Acknowledge(e.outcome))).(db := e.db)
  }

  predicate ExecutesSecond(s: Sys, s': Sys, t: Thread) {
    && Inside(s, t)
    && var j := s.jobs[t];
       && j.phase.HalfDone? && j.req.CancelReservation?
       && var e := Second(s.db, j.req);
          s' == Decide(s, t, Acknowledge(e.outcome)).(db := e.db)
  }

  ghost predicate RunsQuery(s: Sys, s': Sys, t: Thread, reply: Reply) {
    && Inside(s, t)
    && var j := s.jobs[t];
       j.phase.Fresh? && IsQuery(j.req) && Answers(s.db, j.req, reply) && s' == Decide(s, t, reply)
  }

  /** The first packet of the reply, which for a list opens a transfer. */
  predicate Replies(s: Sys, s': Sys, t: Thread) {
    && Inside(s, t)
    && var j := s.jobs[t];
       && j.phase.Decided?
       && var reply := j.phase.reply;
          s' == if IsList(reply) then WithPhase(s, t, Sending(reply, ListLength(reply))) else Answer(s, t, reply)
  }

  /** One receive of a transfer, whatever it brings, and the packet sent upon it: the next
      item if it is asked for and there is one, else the last packet. */
  predicate Exchanges(s: Sys, s': Sys, t: Thread, r: Transfer.Received) {
    && Inside(s, t)
    && var j := s.jobs[t];
       && j.phase.Sending?
       && var reply, left := j.phase.reply, j.phase.left;
          s' == if Transfer.NextArrives(r) && left > 0 then WithPhase(s, t, Sending(reply, left - 1))
                else Answer(s, t, reply)
  }

  ghost predicate Handles(s: Sys, s': Sys, t: Thread) {
    || ChecksExistence(s, s', t) || Refuses(s, s', t) || Executes(s, s', t) || ExecutesSecond(s, s', t)
    || (exists reply :: RunsQuery(s, s', t, reply))
    || Replies(s, s', t) || (exists r :: Exchanges(s, s', t, r))
  }

  ghost predicate SysStepOf(s: Sys, s': Sys, t: Thread) {
    (exists req :: Receives(s, s', t, req)) || Locks(s, s', t) || Handles(s, s', t)
  }

  ghost predicate SysStep(s: Sys, s': Sys) {
    exists t :: SysStepOf(s, s', t)
  }

  ghost predicate SysInitial(s: Sys, db: Tables) {
    && Initial(s.lock) && s.db == db && s.jobs.Keys == s.lock.pc.Keys
    && (forall t | t in s.jobs :: s.jobs[t].Idle?)
    && s.next == 0 && s.hist == [] && s.lin == []
  }

  ghost predicate SysRun(run: seq<Sys>) {
    && run != []
    && forall i | 0 <= i < |run| - 1 :: SysStep(run[i], run[i + 1])
  }
}

/** Linearizability: what clients see of any interleaving is what they would see of the
    requests one at a time, in an order that respects real time. */
module Linearizability {
  import opened Database
  import opened Service
  import opened Server

  // ---- Linearizable histories ----

  predicate DistinctIds(lin: seq<Op>) {
    forall i, j | 0 <= i < j < |lin| :: lin[i].id != lin[j].id
  }

  predicate Listed(lin: seq<Op>, id: nat) {
    exists k :: 0 <= k < |lin| && lin[k].id == id
  }

  predicate Responded(hist: seq<Event>, id: nat) {
    exists i :: 0 <= i < |hist| && hist[i].Respond? && hist[i].id == id
  }

  /** Every reply that was sent is the one in the order. */
  ghost predicate RepliesMatch(hist: seq<Event>, lin: seq<Op>) {
    forall e | e in hist && e.Respond? :: exists op :: op in lin && op.id == e.id && op.reply == e.reply
  }

  /** Nothing is in the order that no client asked for. */
  ghost predicate NothingInvented(hist: seq<Event>, lin: seq<Op>) {
    forall op | op in lin :: Invoke(op.id, op.req) in hist
  }

  /** A request that arrived after another one's reply comes after it in the order. */
  ghost predicate RealTime(hist: seq<Event>, lin: seq<Op>) {
    forall i, j, p, q | 0 <= i < j < |hist| && 0 <= p < |lin| && 0 <= q < |lin|
        && hist[i].Respond? && hist[j].Invoke? && lin[p].id == hist[i].id && lin[q].id == hist[j].id ::
      p < q
  }

  ghost predicate LinearizedBy(db: Tables, hist: seq<Event>, lin: seq<Op>) {
    && DistinctIds(lin) && Legal(db, lin)
    && RepliesMatch(hist, lin) && NothingInvented(hist, lin) && RealTime(hist, lin)
  }

  ghost predicate Linearizable(db: Tables, hist: seq<Event>) {
    exists lin :: LinearizedBy(db, hist, lin)
  }

  lemma LegalAppend(db: Tables, lin: seq<Op>, op: Op)
    requires Legal(db, lin) && Serves(Replay(db, lin), op.req, op.reply)
    ensures Legal(db, lin + [op])
    ensures Replay(db, lin + [op]) == After(Replay(db, lin), op.req)
  {
    hide Serves, After;
    assert (lin + [op])[..|lin|] == lin;
  }

  lemma OpAppends(db: Tables, hist: seq<Event>, lin: seq<Op>, op: Op)
    requires LinearizedBy(db, hist, lin) && Serves(Replay(db, lin), op.req, op.reply)
    requires !Listed(lin, op.id) && !Responded(hist, op.id) && Invoke(op.id, op.req) in hist
    ensures LinearizedBy(db, hist, lin + [op])
  {
    hide Legal, Serves, Replay;
    LegalAppend(db, lin, op);
    var all := lin + [op];
    forall i, j | 0 <= i < j < |all| ensures all[i].id != all[j].id {
      assert lin[i].id != op.id;
    }
    forall i, j, p, q | 0 <= i < j < |hist| && 0 <= p < |all| && 0 <= q < |all|
        && hist[i].Respond? && hist[j].Invoke? && all[p].id == hist[i].id && all[q].id == hist[j].id
      ensures p < q
    {
      assert p < |lin| by { assert hist[i].id != op.id; }
    }
    forall e | e in hist && e.Respond? ensures exists o :: o in all && o.id == e.id && o.reply == e.reply {
      var o :| o in lin && o.id == e.id && o.reply == e.reply;
      assert o in all;
    }
  }

  lemma InvokeAppends(db: Tables, hist: seq<Event>, lin: seq<Op>, id: nat, req: Request)
    requires LinearizedBy(db, hist, lin) && !Listed(lin, id)
    ensures LinearizedBy(db, hist + [Invoke(id, req)], lin)
  {
    hide Legal;
  }

  lemma RespondAppends(db: Tables, hist: seq<Event>, lin: seq<Op>, op: Op)
    requires LinearizedBy(db, hist, lin) && op in lin
    ensures LinearizedBy(db, hist + [Respond(op.id, op.reply)], lin)
  {
    hide Legal;
    var all := hist + [Respond(op.id, op.reply)];
    assert forall e | e in all :: e in hist || e == Respond(op.id, op.reply);
  }
}
