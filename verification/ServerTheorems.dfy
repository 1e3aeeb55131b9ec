/** What holds of every run of the concurrent server. */
module ServerTheorems {
  import opened CStrings
  import opened Database
  import opened Queries
  import opened Service
  import opened Lock
  import opened Server
  import opened Linearizability
  import opened ServerInvariant
  import opened Sums
  import History
  import opened LockInvariant
  import LockLiveness

  /** `s` is reached by some run that starts with these tables. */
  ghost predicate Reached(s: Sys, db0: Tables) {
    exists run :: SysRun(run) && SysInitial(run[0], db0) && run[|run| - 1] == s
  }

  lemma ReachedInv(s: Sys, db0: Tables)
    requires Reached(s, db0)
    ensures SysInv(s, db0)
  {
    hide SysInv, SysStep, SysInitial;
    var run :| SysRun(run) && SysInitial(run[0], db0) && run[|run| - 1] == s;
    RunSysInv(run, db0);
  }

  // ---- Linearizability ----

  /** Whatever the interleaving of any number of threads, the requests and replies clients
      saw so far are those of running the requests one at a time, in an order that
      respects real time. */
  lemma EveryRunIsLinearizable(s: Sys, db0: Tables)
    requires Reached(s, db0)
    ensures Linearizable(db0, s.hist)
  {
    hide Reached, Inv, LinearizedBy, JobsFit, TablesFit, Recorded, HistoryFit;
    ReachedInv(s, db0);
  }

  ghost predicate AllIdle(s: Sys) {
    forall t | t in s.jobs :: s.jobs[t].Idle?
  }

  /** Once no request is in progress, the order holds exactly the requests clients made,
      and the tables are those the one-at-a-time execution leaves. */
  lemma QuiescentTables(s: Sys, db0: Tables)
    requires Reached(s, db0) && AllIdle(s)
    ensures LinearizedBy(db0, s.hist, s.lin) && s.db == Replay(db0, s.lin)
    ensures forall e | e in s.hist && e.Invoke? :: Responded(s.hist, e.id) && Listed(s.lin, e.id)
  {
    hide Reached, Inv, JobsFit, Recorded, Legal, RealTime, NothingInvented, Replay;
    ReachedInv(s, db0);
    forall e | e in s.hist && e.Invoke? ensures Responded(s.hist, e.id) && Listed(s.lin, e.id) {
      assert Responded(s.hist, e.id);
      var i :| 0 <= i < |s.hist| && s.hist[i].Respond? && s.hist[i].id == e.id;
      assert s.hist[i] in s.hist;
      var op :| op in s.lin && op.id == e.id;
      var k :| 0 <= k < |s.lin| && s.lin[k] == op;
    }
  }

  /** No reachable tables break a constraint of the schema, not even between the two
      statements of a cancellation. */
  lemma TablesStayConsistent(s: Sys, db0: Tables)
    requires Reached(s, db0) && Consistent(db0)
    ensures Consistent(s.db)
    ensures forall m, n | m in s.db.movies && n in s.db.movies && m.name == n.name :: m == n
    ensures forall p | p in s.db.screenings :: exists m :: m in s.db.movies && m.name == p.movie
    ensures forall p, q | p in s.db.screenings && q in s.db.screenings
              && p.day == q.day && p.month == q.month && p.slot == q.slot && p.hall == q.hall :: p == q
    ensures forall r | r in s.db.reservations :: exists p :: p in s.db.screenings && p.id == r.screening
    ensures forall r, q | r in s.db.reservations && q in s.db.reservations
              && r.screening == q.screening && r.seat == q.seat :: r == q
    ensures forall c | c in s.db.cancelled :: exists p :: p in s.db.screenings && p.id == c.screening
  {
    hide Reached, Inv, Consistent, Recorded, HistoryFit, LinearizedBy, Replay, First, Check;
    ReachedInv(s, db0);
    ReplayConsistent(db0, s.lin);
    if t :| t in s.jobs && s.jobs[t].Job? && s.jobs[t].phase.HalfDone? {
      assert JobFits(s.lock.pc[t], s.jobs[t]);
      FirstKeeps(Replay(db0, s.lin), s.jobs[t].req);
    }
    ConstraintsSpelledOut(s.db);
  }

  /** A request that can change any tables enters as a writer; the one query that also
      does is the list of cancelled tickets. */
  lemma WritersAreClassified(req: Request)
    ensures (exists db :: After(db, req) != db) ==> SyncRole(req) == Writer
    ensures IsQuery(req) && SyncRole(req) == Writer <==> req.ListCancelled?
  {}

  // ---- Tickets in the eyes of the clients ----

  /** A request the clients saw acknowledged as a reservation on `id`. */
  ghost predicate AckedSale(hist: seq<Event>, i: nat, id: int) {
    && Respond(i, Ack) in hist
    && exists e :: e in hist && e.Invoke? && e.id == i && e.req.MakeReservation? && e.req.screening == id
  }

  ghost function SaleIds(lin: seq<Op>, id: int): set<nat> {
    set op | op in lin && History.IsSale(op, id) :: op.id
  }

  lemma {:induction false} SoldCounts(lin: seq<Op>, id: int)
    requires DistinctIds(lin)
    ensures |SaleIds(lin, id)| == History.Sold(lin, id)
  {
    if lin == [] {
    } else {
      var front, op := lin[..|lin| - 1], lin[|lin| - 1];
      SoldCounts(front, id);
      assert forall o :: o in lin <==> o in front || o == op;
      if History.IsSale(op, id) {
        assert SaleIds(lin, id) == SaleIds(front, id) + {op.id};
        assert op.id !in SaleIds(front, id);
      } else {
        assert SaleIds(lin, id) == SaleIds(front, id);
      }
    }
  }

  lemma OneRequestPerId(s: Sys, db0: Tables)
    requires Reached(s, db0)
    ensures forall e, f | e in s.hist && f in s.hist && e.Invoke? && f.Invoke? && e.id == f.id :: e == f
  {
    hide Reached, Inv, LinearizedBy, TablesFit, JobsFit, Recorded;
    ReachedInv(s, db0);
  }

  lemma SaleIsInOrder(s: Sys, db0: Tables, id: int, i: nat)
    requires Reached(s, db0) && AckedSale(s.hist, i, id)
    ensures i in SaleIds(s.lin, id)
  {
    hide Reached, Inv, JobsFit, TablesFit, Recorded, HistoryFit, Legal, RealTime, DistinctIds;
    ReachedInv(s, db0);
    OneRequestPerId(s, db0);
    var e :| e in s.hist && e.Invoke? && e.id == i && e.req.MakeReservation? && e.req.screening == id;
    var op :| op in s.lin && op.id == i && op.reply == Ack;
    assert Invoke(op.id, op.req) == e;
  }

  lemma SaleWasSeen(s: Sys, db0: Tables, id: int, i: nat)
    requires Reached(s, db0) && i in SaleIds(s.lin, id) && !Outstanding(s, i)
    ensures AckedSale(s.hist, i, id)
  {
    hide Reached, Inv, JobsFit, TablesFit, Recorded, Legal, RealTime, Outstanding;
    ReachedInv(s, db0);
    var op :| op in s.lin && History.IsSale(op, id) && op.id == i;
    var e := Invoke(op.id, op.req);
    assert e in s.hist && Responded(s.hist, op.id);
    var k :| 0 <= k < |s.hist| && s.hist[k].Respond? && s.hist[k].id == op.id;
    assert s.hist[k] in s.hist;
    var o :| o in s.lin && o.id == op.id && o.reply == s.hist[k].reply;
    assert o == op;
  }

  /** The ids of the requests in progress. */
  ghost function InProgress(s: Sys): set<nat> {
    set t | t in s.jobs && s.jobs[t].Job? :: s.jobs[t].id
  }

  lemma Subset(a: set<nat>, b: set<nat>)
    requires a <= b
    ensures |a| <= |b|
  {
    assert b == a + (b - a);
  }

  /** Each sale of the order was acknowledged to its client or is in progress. */
  lemma SalesSeenOrInProgress(s: Sys, db0: Tables, id: int, acked: set<nat>)
    requires Reached(s, db0) && forall i: nat :: i in acked <==> AckedSale(s.hist, i, id)
    ensures acked <= SaleIds(s.lin, id) <= acked + InProgress(s)
    ensures |SaleIds(s.lin, id)| == History.Sold(s.lin, id)
  {
    hide Reached, AckedSale, SaleIds, Inv, JobsFit, TablesFit, Recorded, HistoryFit, Legal, RealTime, RepliesMatch,
      NothingInvented;
    ReachedInv(s, db0);
    SoldCounts(s.lin, id);
    forall i | i in acked ensures i in SaleIds(s.lin, id) {
      SaleIsInOrder(s, db0, id, i);
    }
    forall i | i in SaleIds(s.lin, id) ensures i in acked || i in InProgress(s) {
      if !Outstanding(s, i) {
        SaleWasSeen(s, db0, id, i);
      }
    }
  }

  /** A half-done cancellation counts its ticket twice, on its own screening only. */
  lemma HalfDoneCount(base: Tables, db: Tables, req: Request, id: int)
    requires Consistent(base) && req.CancelReservation? && First(base, req) == Executed(db, Done)
    ensures HasScreening(base, id) == HasScreening(db, id)
    ensures History.TicketCount(base, id) <= History.TicketCount(db, id) <= History.TicketCount(base, id) + 1
  {
    var c := Cancellation(base.lastCancelled + 1, req.client, req.screening, req.seat);
    assert c !in base.cancelled;
    assert History.ReservedOn(db, id) == History.ReservedOn(base, id);
    assert History.CancelledOn(db, id) == History.CancelledOn(base, id) + (if req.screening == id then {c} else {});
  }

  lemma NotListed(lin: seq<Op>, id: nat)
    requires !Listed(lin, id)
    ensures forall op | op in lin :: op.id != id
  {
    forall op | op in lin ensures op.id != id {
      var k :| 0 <= k < |lin| && lin[k] == op;
    }
  }

  lemma HalfDoneIsNew(s: Sys, db0: Tables, t: Thread, id: int)
    requires Reached(s, db0) && t in s.jobs && s.jobs[t].Job? && s.jobs[t].phase.HalfDone?
    ensures s.jobs[t].id !in SaleIds(s.lin, id) && s.jobs[t].id in InProgress(s)
    ensures s.jobs[t].req.CancelReservation? && First(Replay(db0, s.lin), s.jobs[t].req) == Executed(s.db, Done)
  {
    hide Reached, Inv, HistoryFit, LinearizedBy, Replay, First, Check;
    ReachedInv(s, db0);
    JobIsRecorded(s, t);
    assert JobFits(s.lock.pc[t], s.jobs[t]);
    NotListed(s.lin, s.jobs[t].id);
  }

  /** At any moment the active and cancelled tickets of an existing screening are at least
      those at the start plus one for each reservation on it that a client saw
      acknowledged, and at most that plus one for each request in progress. */
  lemma TicketsBounded(s: Sys, db0: Tables, id: int, acked: set<nat>)
    requires Reached(s, db0) && Consistent(db0) && HasScreening(s.db, id)
    requires forall i: nat :: i in acked <==> AckedSale(s.hist, i, id)
    ensures var sold := History.TicketCount(s.db, id) - History.TicketCount(db0, id);
      |acked| <= sold <= |acked| + |InProgress(s)|
  {
    hide Reached, Consistent, AckedSale, SaleIds, InProgress, Replay, Legal, First, History.TicketCount, HasScreening;
    SalesSeenOrInProgress(s, db0, id, acked);
    var sales := SaleIds(s.lin, id);
    Subset(acked, sales);
    ReachedLegal(s, db0);
    ReplayConsistent(db0, s.lin);
    if t :| t in s.jobs && s.jobs[t].Job? && s.jobs[t].phase.HalfDone? {
      HalfDoneIsNew(s, db0, t, id);
      HalfDoneCount(Replay(db0, s.lin), s.db, s.jobs[t].req, id);
      Subset(sales + {s.jobs[t].id}, acked + InProgress(s));
    } else {
      Subset(sales, acked + InProgress(s));
    }
    History.TicketsConserved(db0, s.lin, id);
  }

  lemma ReachedLegal(s: Sys, db0: Tables)
    requires Reached(s, db0)
    ensures Legal(db0, s.lin)
    ensures (forall t | t in s.jobs && s.jobs[t].Job? :: !s.jobs[t].phase.HalfDone?) ==> s.db == Replay(db0, s.lin)
  {
    hide Reached, Inv, JobsFit, Recorded, HistoryFit, Legal, Replay, First, Check, RealTime, RepliesMatch,
      NothingInvented;
    ReachedInv(s, db0);
  }

  /** With no request in progress they are exactly those. */
  lemma TicketsMatchAcks(s: Sys, db0: Tables, id: int, acked: set<nat>)
    requires Reached(s, db0) && AllIdle(s) && Consistent(db0) && HasScreening(s.db, id)
    requires forall i: nat :: i in acked <==> AckedSale(s.hist, i, id)
    ensures History.TicketCount(s.db, id) == History.TicketCount(db0, id) + |acked|
  {
    hide Reached, Consistent, HasScreening, AckedSale, History.TicketCount;
    TicketsBounded(s, db0, id, acked);
    assert InProgress(s) == {};
  }

  // ---- Ids and answers in concurrent runs ----

  lemma StepIds(s: Sys, s': Sys, id: int)
    requires SysStep(s, s')
    ensures s'.db.lastScreening >= s.db.lastScreening
    ensures HasScreening(s'.db, id) ==> HasScreening(s.db, id) || History.Unborn(s.db, id)
  {
    hide Receives, Locks, RunsQuery, Check, WithPhase, Decide, Answer;
    var t :| SysStepOf(s, s', t);
    if Locks(s, s', t) || exists req :: Receives(s, s', t, req) {
      assert s'.db == s.db by { SameTablesOutside(s, s', t); }
    } else if Executes(s, s', t) || ExecutesSecond(s, s', t) {
      StatementIds(s.db, s.jobs[t].req, id);
    } else {
      assert s'.db == s.db by { SameTablesInside(s, s', t); }
    }
  }

  lemma SameTablesOutside(s: Sys, s': Sys, t: Thread)
    requires Locks(s, s', t) || exists req :: Receives(s, s', t, req)
    ensures s'.db == s.db
  {}

  lemma SameTablesInside(s: Sys, s': Sys, t: Thread)
    requires Handles(s, s', t) && !Executes(s, s', t) && !ExecutesSecond(s, s', t)
    ensures s'.db == s.db
  {
    hide Executes, ExecutesSecond, Answers, Check;
  }

  lemma StatementIds(db: Tables, req: Request, id: int)
    requires !IsQuery(req)
    ensures First(db, req).db.lastScreening >= db.lastScreening
    ensures HasScreening(First(db, req).db, id) ==> HasScreening(db, id) || History.Unborn(db, id)
    ensures req.CancelReservation? ==> Second(db, req).db.screenings == db.screenings
    ensures req.CancelReservation? ==> Second(db, req).db.lastScreening == db.lastScreening
  {}

  /** In any run of the concurrent server, the id of a screening that is gone never
      comes back. */
  lemma {:induction false} NoIdReturns(run: seq<Sys>, i: nat, j: nat, id: int)
    requires SysRun(run) && i <= j < |run|
    requires !HasScreening(run[i].db, id) && !History.Unborn(run[i].db, id)
    ensures !HasScreening(run[j].db, id) && !History.Unborn(run[j].db, id)
    decreases j
  {
    hide SysStep, HasScreening;
    if i == j {
    } else {
      NoIdReturns(run, i, j - 1, id);
      StepIds(run[j - 1], run[j], id);
    }
  }

  /** Every reply a client got in a concurrent run is the one its request has at its
      place in the order, on tables that satisfy every constraint. */
  lemma AnswerHasItsPlace(s: Sys, db0: Tables, i: nat, req: Request, reply: Reply) returns (k: nat)
    requires Reached(s, db0) && Consistent(db0) && Invoke(i, req) in s.hist && Respond(i, reply) in s.hist
    ensures k < |s.lin| && s.lin[k] == Op(i, req, reply)
    ensures Serves(Replay(db0, s.lin[..k]), req, reply) && Consistent(Replay(db0, s.lin[..k]))
  {
    hide Reached, Inv, JobsFit, TablesFit, Recorded, HistoryFit, Legal, RealTime, DistinctIds, Serves, Replay,
      Consistent;
    ReachedInv(s, db0);
    OneRequestPerId(s, db0);
    var op :| op in s.lin && op.id == i && op.reply == reply;
    assert Invoke(op.id, op.req) in s.hist;
    k :| 0 <= k < |s.lin| && s.lin[k] == op;
    LegalAt(db0, s.lin, k);
    ReplayConsistent(db0, s.lin[..k]);
  }

  /** What a query was answered in a concurrent run is exact for the tables at its place in
      the order; in which order the rows come is what `Serves` says of these tables. */
  lemma QuerySeen(s: Sys, db0: Tables, i: nat, req: Request, reply: Reply) returns (k: nat)
    requires Reached(s, db0) && Consistent(db0) && IsQuery(req)
    requires Invoke(i, req) in s.hist && Respond(i, reply) in s.hist
    ensures k < |s.lin| && s.lin[k] == Op(i, req, reply) && Serves(Replay(db0, s.lin[..k]), req, reply)
    ensures var db := Replay(db0, s.lin[..k]);
      match req
      case ListScreenings(movie) =>
        reply.Screenings? && (forall p :: p in reply.screenings <==> p in db.screenings && p.movie == movie)
      case ListMovies =>
        reply.Movies? && (forall m :: m in reply.movies <==> m in db.movies)
      case ShowSeats(id) =>
        && reply.Seats? && |reply.seats| == 300
        && (forall n | 0 <= n < 300 ::
              reply.seats[n] == 1 <==> exists r :: r in db.reservations && r.screening == Atoi(id) && r.seat == n)
      case ListReservations(client) =>
        && reply.Tickets?
        && (forall t: Ticket :: t in reply.tickets <==>
              t.screening in db.screenings && Reservation(client, t.screening.id, t.seat) in db.reservations)
      case ListCancelled(client) =>
        && reply.Tickets?
        && (forall t: Ticket :: multiset(reply.tickets)[t] == if t.screening !in db.screenings then 0 else
              |set c | c in db.cancelled && c.client == client && c.screening == t.screening.id && c.seat == t.seat|)
      case _ => true
  {
    hide Reached, Consistent, Serves, Replay;
    k := AnswerHasItsPlace(s, db0, i, req, reply);
    var db := Replay(db0, s.lin[..k]);
    match req
    case ListScreenings(movie) => ScreeningsAnswer(db, movie, reply);
    case ListMovies => MoviesAnswer(db, reply);
    case ShowSeats(id) => SeatsAnswer(db, id, reply);
    case ListReservations(client) => ReservationsAnswer(db, client, reply);
    case ListCancelled(client) => CancelledAnswer(db, client, reply);
  }

  /** A request that arrived after another one's reply comes after it in the order. */
  lemma OrderRespectsRealTime(s: Sys, db0: Tables, a: nat, b: nat, p: nat, q: nat)
    requires Reached(s, db0) && a < b < |s.hist| && s.hist[a].Respond? && s.hist[b].Invoke?
    requires p < |s.lin| && q < |s.lin| && s.lin[p].id == s.hist[a].id && s.lin[q].id == s.hist[b].id
    ensures p < q
  {
    hide Reached, Inv, JobsFit, TablesFit, Recorded, HistoryFit, Legal, RepliesMatch, NothingInvented, DistinctIds;
    ReachedInv(s, db0);
  }

  function UpTo(n: nat): (r: set<nat>)
    ensures |r| == n && forall i: nat :: i in r <==> i < n
  {
    if n == 0 then {} else UpTo(n - 1) + {n - 1}
  }

  lemma IdsBelow(lin: seq<Op>, n: nat)
    requires DistinctIds(lin) && forall op | op in lin :: op.id < n
    ensures |lin| <= n
  {
    IdsCounted(lin);
    Subset(set i | 0 <= i < |lin| :: lin[i].id, UpTo(n));
  }

  lemma {:induction false} IdsCounted(lin: seq<Op>)
    requires DistinctIds(lin)
    ensures |set i | 0 <= i < |lin| :: lin[i].id| == |lin|
  {
    var ids := set i | 0 <= i < |lin| :: lin[i].id;
    if lin == [] {
      assert ids == {};
    } else {
      var n := |lin| - 1;
      var front := lin[..n];
      IdsCounted(front);
      assert ids == (set i | 0 <= i < |front| :: front[i].id) + {lin[n].id};
    }
  }

  /** From an empty database, no client is told of an unknown error before more requests
      arrived than there are row ids. */
  lemma NoUnknownError(s: Sys, i: nat)
    requires Reached(s, EMPTY) && Respond(i, Error(UnknownDbError)) in s.hist
    ensures s.next > 0x7fff_ffff_ffff_ffff
  {
    hide Reached, Inv, JobsFit, TablesFit, HistoryFit, Legal, RealTime, NothingInvented, DistinctIds, JobRecorded;
    ReachedInv(s, EMPTY);
    var op :| op in s.lin && op.id == i && op.reply == Error(UnknownDbError);
    var k :| 0 <= k < |s.lin| && s.lin[k] == op;
    History.UnknownErrorNeedsAllIds(s.lin, k);
    History.CountsAtMost(s.lin[..k]);
    IdsBelow(s.lin, s.next);
  }

  // ---- Progress ----

  /** As long as a request is in progress, some thread with a request can take a step. */
  lemma ServerProgress(s: Sys, db0: Tables, t: Thread)
    requires Reached(s, db0) && t in s.jobs && s.jobs[t].Job?
    ensures exists u, s' :: u in s.jobs && s.jobs[u].Job? && (Locks(s, s', u) || Handles(s, s', u))
  {
    hide Reached, Inv, TablesFit, Recorded, HistoryFit, LinearizedBy;
    ReachedInv(s, db0);
    if forall u :: !CanMove(s.lock, u) {
      LockLiveness.NobodyMovesMeansOut(s.lock, t);
    }
    var u :| CanMove(s.lock, u);
    UnfinishedMoves(s, u);
  }

  lemma UnfinishedMoves(s: Sys, u: Thread)
    requires JobsFit(s) && CanMove(s.lock, u)
    ensures u in s.jobs && s.jobs[u].Job?
    ensures exists s' :: Locks(s, s', u) || Handles(s, s', u)
  {
    hide Next, Effect, Requeue, Passable, First, Second, Check, Answers, Acknowledge, JobsFit;
    assert JobFits(s.lock.pc[u], s.jobs[u]) by { FitOf(s, u); }
    var j := s.jobs[u];
    if s.lock.pc[u] in {WIn, RIn} && !j.phase.Answered? {
      HandlerMoves(s, u);
    } else {
      var lock' := Advance(s.lock, u);
      var s' := s.(lock := lock', jobs := if lock'.pc[u] == Out then s.jobs[u := Idle] else s.jobs);
      assert Locks(s, s', u);
    }
  }

  lemma FitOf(s: Sys, u: Thread)
    requires JobsFit(s) && u in s.lock.pc
    ensures u in s.jobs && JobFits(s.lock.pc[u], s.jobs[u])
  {}

  lemma HandlerMoves(s: Sys, u: Thread)
    requires Inside(s, u) && JobFits(s.lock.pc[u], s.jobs[u]) && !s.jobs[u].phase.Answered?
    ensures exists s' :: Handles(s, s', u)
  {
    hide First, Second, Check, Answers, Acknowledge;
    var j := s.jobs[u];
    match j.phase
    case Fresh =>
      if IsQuery(j.req) {
        var reply := QueryAnswerable(s.db, j.req);
        var s' := Decide(s, u, reply);
        assert RunsQuery(s, s', u, reply);
        assert Handles(s, s', u);
      } else if NeedsCheck(j.req) {
        assert Handles(s, WithPhase(s, u, Checked(Check(s.db, j.req))), u);
      } else {
        StatementMoves(s, u);
      }
    case Checked(found) =>
      if found {
        StatementMoves(s, u);
      } else {
        assert Handles(s, Decide(s, u, Error(NoSuchElement)), u);
      }
    case HalfDone =>
      var e := Second(s.db, j.req);
      assert Handles(s, Decide(s, u, Acknowledge(e.outcome)).(db := e.db), u);
    case Decided(reply) =>
      var s' := if IsList(reply) then WithPhase(s, u, Sending(reply, ListLength(reply))) else Answer(s, u, reply);
      assert Handles(s, s', u);
    case Sending(reply, _) =>
      assert Exchanges(s, Answer(s, u, reply), u, Transfer.Failed);
      assert Handles(s, Answer(s, u, reply), u);
  }

  lemma StatementMoves(s: Sys, u: Thread)
    requires Inside(s, u) && !IsQuery(s.jobs[u].req)
    requires if NeedsCheck(s.jobs[u].req) then s.jobs[u].phase == Checked(true) else s.jobs[u].phase.Fresh?
    ensures exists s' :: Handles(s, s', u)
  {
    hide First, Acknowledge;
    var j, e := s.jobs[u], First(s.db, s.jobs[u].req);
    var s' := (if j.req.CancelReservation? && e.outcome == Done then WithPhase(s, u, HalfDone)
               else Decide(s, u, Acknowledge(e.outcome))).(db := e.db);
    assert Handles(s, s', u);
  }

  /** A thread without a request can be given any request. */
  lemma AnyRequestArrives(s: Sys, db0: Tables, t: Thread, req: Request)
    requires Reached(s, db0) && t in s.jobs && s.jobs[t].Idle?
    ensures exists s' :: Receives(s, s', t, req)
  {
    hide Reached, Inv, TablesFit, Recorded, HistoryFit, LinearizedBy;
    ReachedInv(s, db0);
    FitOf(s, t);
    assert Receives(s, s.(lock := Start(s.lock, t, SyncRole(req)), jobs := s.jobs[t := Job(s.next, req, Fresh)],
                          next := s.next + 1, hist := s.hist + [Invoke(s.next, req)]), t, req);
  }

  /** Inside a transfer, whatever the receive brings, the server goes on. */
  lemma AnyReceiveMoves(s: Sys, t: Thread, r: Transfer.Received)
    requires Inside(s, t) && s.jobs[t].phase.Sending?
    ensures exists s' :: Exchanges(s, s', t, r)
  {
    var reply, left := s.jobs[t].phase.reply, s.jobs[t].phase.left;
    assert Exchanges(s, if Transfer.NextArrives(r) && left > 0 then WithPhase(s, t, Sending(reply, left - 1))
                        else Answer(s, t, reply), t, r);
  }

  // ---- Termination ----

  /** How many steps of its own a handler has before it at most. */
  function PhaseRank(j: Job): nat {
    match j
    case Idle => 0
    case Job(_, _, phase) =>
      match phase
      case Fresh => 5
      case Checked(_) => 4
      case HalfDone => 3
      case Decided(reply) => 2 + ListLength(reply)
      case Sending(_, left) => left + 1
      case Answered(_) => 0
  }

  ghost function SysWork(s: Sys): nat {
    Sum(s.lock.pc, LockLiveness.Rank) + Sum(s.jobs, PhaseRank)
  }

  lemma LocksWork(s: Sys, s': Sys, t: Thread)
    requires Locks(s, s', t)
    ensures SysWork(s') < SysWork(s) && s'.next == s.next && s'.lin == s.lin
  {
    hide Sum, Next, Effect, Requeue, LockLiveness.Rank;
    SumAfter(s.lock.pc, LockLiveness.Rank, t, s'.lock.pc[t]);
    assert s'.lock.pc == s.lock.pc[t := s'.lock.pc[t]];
    LockLiveness.RankDrops(s.lock.pc[t], s.lock.v);
    SumAfter(s.jobs, PhaseRank, t, Idle);
  }

  /** The items of all the lists among the replies. */
  function ItemsListed(lin: seq<Op>): nat {
    if lin == [] then 0 else ItemsListed(lin[..|lin| - 1]) + ListLength(lin[|lin| - 1].reply)
  }

  lemma OneMoreListed(lin: seq<Op>, op: Op)
    ensures ItemsListed(lin + [op]) == ItemsListed(lin) + ListLength(op.reply)
  {
    assert (lin + [op])[..|lin|] == lin;
  }

  /** What a handler step does: it gets nearer to the end, by the length of its list if it
      settles on a reply. */
  ghost predicate Nearer(s: Sys, s': Sys, t: Thread) {
    && t in s.jobs && t in s'.jobs && s'.jobs == s.jobs[t := s'.jobs[t]] && s'.lock == s.lock && s'.next == s.next
    && PhaseRank(s'.jobs[t]) + ItemsListed(s.lin) < PhaseRank(s.jobs[t]) + ItemsListed(s'.lin)
  }

  lemma SettlingNearer(s: Sys, s': Sys, t: Thread, reply: Reply, db: Tables)
    requires Inside(s, t) && s' == Decide(s, t, reply).(db := db)
    requires s.jobs[t].phase.Fresh? || s.jobs[t].phase.Checked? || s.jobs[t].phase.HalfDone?
    ensures Nearer(s, s', t)
  {
    hide ItemsListed, ListLength;
    OneMoreListed(s.lin, Op(s.jobs[t].id, s.jobs[t].req, reply));
  }

  lemma SendingNearer(s: Sys, s': Sys, t: Thread)
    requires Replies(s, s', t) || exists r :: Exchanges(s, s', t, r)
    ensures Nearer(s, s', t)
  {
    hide ItemsListed, ListLength, IsList;
  }

  lemma HandlesNearer(s: Sys, s': Sys, t: Thread)
    requires Handles(s, s', t)
    ensures Nearer(s, s', t)
  {
    hide First, Second, Check, Answers, Acknowledge, ItemsListed, ListLength, Replies, Exchanges;
    if Refuses(s, s', t) || ExecutesSecond(s, s', t) || exists reply :: RunsQuery(s, s', t, reply) {
      SettlingNearer(s, s', t, s'.jobs[t].phase.reply, s'.db);
    } else if Executes(s, s', t) && s'.jobs[t].phase.Decided? {
      SettlingNearer(s, s', t, s'.jobs[t].phase.reply, s'.db);
    } else if Replies(s, s', t) || exists r :: Exchanges(s, s', t, r) {
      SendingNearer(s, s', t);
    }
  }

  lemma HandlesWork(s: Sys, s': Sys, t: Thread)
    requires Handles(s, s', t)
    ensures SysWork(s') + 1 + ItemsListed(s.lin) <= SysWork(s) + ItemsListed(s'.lin) && s'.next == s.next
  {
    hide Sum, Handles, PhaseRank, ItemsListed;
    HandlesNearer(s, s', t);
    SumAfter(s.jobs, PhaseRank, t, s'.jobs[t]);
  }

  lemma ReceivesWork(s: Sys, s': Sys, t: Thread, req: Request)
    requires Receives(s, s', t, req)
    ensures SysWork(s') <= SysWork(s) + 21 && s'.next == s.next + 1 && s'.lin == s.lin
  {
    hide Sum;
    SumAfter(s.lock.pc, LockLiveness.Rank, t, s'.lock.pc[t]);
    SumAfter(s.jobs, PhaseRank, t, s'.jobs[t]);
  }

  lemma SysStepWork(s: Sys, s': Sys)
    requires SysStep(s, s')
    ensures SysWork(s') + 1 + 22 * s.next + ItemsListed(s.lin) <= SysWork(s) + 22 * s'.next + ItemsListed(s'.lin)
  {
    hide SysWork, Receives, Locks, Handles, ItemsListed;
    var t :| SysStepOf(s, s', t);
    if Locks(s, s', t) {
      LocksWork(s, s', t);
    } else if Handles(s, s', t) {
      HandlesWork(s, s', t);
    } else {
      var req :| Receives(s, s', t, req);
      ReceivesWork(s, s', t, req);
    }
  }

  /** Serving n requests takes at most 22 n steps plus one for each item of the lists sent,
      whatever the interleaving and whatever the peers answer inside a transfer. */
  lemma {:induction false} ServiceIsBounded(run: seq<Sys>, db0: Tables)
    requires SysRun(run) && SysInitial(run[0], db0)
    ensures |run| - 1 + SysWork(run[|run| - 1]) <= 22 * run[|run| - 1].next + ItemsListed(run[|run| - 1].lin)
  {
    hide SysWork, SysStep, ItemsListed;
    if |run| == 1 {
      InitialWork(run[0], db0);
    } else {
      var n := |run| - 1;
      var front := run[..n];
      assert forall i | 0 <= i < |front| :: front[i] == run[i];
      ServiceIsBounded(front, db0);
      assert SysStep(run[n - 1], run[n]);
      SysStepWork(run[n - 1], run[n]);
    }
  }

  lemma InitialWork(s: Sys, db0: Tables)
    requires SysInitial(s, db0)
    ensures SysWork(s) == 0
  {
    SumZero(s.lock.pc, LockLiveness.Rank);
    SumZero(s.jobs, PhaseRank);
  }

  /** A run that only a new request could continue has answered every request, and the
      lock is as at the start. */
  lemma MaximalRunsFinish(s: Sys, db0: Tables)
    requires Reached(s, db0)
    requires forall u, s' :: !Locks(s, s', u) && !Handles(s, s', u)
    ensures AllIdle(s) && Initial(s.lock)
    ensures forall e | e in s.hist && e.Invoke? :: Responded(s.hist, e.id)
  {
    hide Reached, Locks, Handles, Inv, LinearizedBy, TablesFit, Recorded, HistoryFit;
    ReachedInv(s, db0);
    forall t | t in s.jobs ensures s.jobs[t].Idle? {
      if s.jobs[t].Job? {
        ServerProgress(s, db0, t);
      }
    }
    QuiescentTables(s, db0);
    NobodyInside(s);
  }

  lemma NobodyInside(s: Sys)
    requires Inv(s.lock) && JobsFit(s) && AllIdle(s)
    ensures Initial(s.lock)
  {
    hide Inv;
    assert forall t | t in s.lock.pc :: t in s.jobs && JobFits(s.lock.pc[t], s.jobs[t]);
    LockLiveness.OutIsInitial(s.lock);
  }
}
