/** Properties of whole histories of requests: ids are never reused and no ticket is
    lost or made up. */
module History {
  import opened Database
  import opened Service

  // ---- Screening ids ----

  /** The screening `id` was never created so far. */
  predicate Unborn(db: Tables, id: int) {
    id > db.lastScreening
  }

  lemma StepIds(db: Tables, req: Request, id: int)
    requires Consistent(db)
    ensures After(db, req).lastScreening >= db.lastScreening
    ensures HasScreening(After(db, req), id) ==> HasScreening(db, id) || Unborn(db, id)
  {}

  /** Screening ids only grow, and the id of a deleted screening never comes back. */
  lemma {:induction false} IdsNeverReused(db: Tables, ops: seq<Op>, id: int)
    requires Consistent(db)
    ensures Replay(db, ops).lastScreening >= db.lastScreening
    ensures !HasScreening(db, id) && !Unborn(db, id) ==> !HasScreening(Replay(db, ops), id)
  {
    hide Consistent, After, HasScreening;
    if ops == [] {
    } else {
      var front := ops[..|ops| - 1];
      IdsNeverReused(db, front, id);
      ReplayConsistent(db, front);
      StepIds(Replay(db, front), ops[|ops| - 1].req, id);
    }
  }

  // ---- Conservation of tickets ----

  function ReservedOn(db: Tables, id: int): set<Reservation> {
    set r | r in db.reservations && r.screening == id
  }

  function CancelledOn(db: Tables, id: int): set<Cancellation> {
    set c | c in db.cancelled && c.screening == id
  }

  /** Active and cancelled tickets of a screening. */
  function TicketCount(db: Tables, id: int): nat {
    |ReservedOn(db, id)| + |CancelledOn(db, id)|
  }

  /** The request is a reservation on `id` that was acknowledged. */
  predicate IsSale(op: Op, id: int) {
    op.req.MakeReservation? && op.req.screening == id && op.reply == Ack
  }

  function Sold(ops: seq<Op>, id: int): nat {
    if ops == [] then 0
    else Sold(ops[..|ops| - 1], id) + (if IsSale(ops[|ops| - 1], id) then 1 else 0)
  }

  lemma NoTicketsWithoutScreening(db: Tables, id: int)
    requires Consistent(db) && !HasScreening(db, id)
    ensures TicketCount(db, id) == 0
  {}

  lemma SaleCounts(db: Tables, req: Request, id: int)
    requires Consistent(db) && req.MakeReservation? && req.screening == id
    requires Update(db, req).reply == Ack
    ensures TicketCount(After(db, req), id) == TicketCount(db, id) + 1
  {
    hide Update;
    ReservationAnswer(db, req);
    var row := Reservation(req.client, req.screening, req.seat);
    var e := After(db, req);
    assert e == db.(reservations := db.reservations + {row}) && row !in db.reservations;
    assert ReservedOn(e, id) == ReservedOn(db, id) + {row};
    assert CancelledOn(e, id) == CancelledOn(db, id);
  }

  /** Moving one row from the reservations to the cancellations keeps the sum. */
  lemma MoveKeepsCount(db: Tables, e: Tables, row: Reservation, moved: Cancellation, id: int)
    requires row in db.reservations && moved !in db.cancelled && row.screening == moved.screening
    requires e.reservations == db.reservations - {row} && e.cancelled == db.cancelled + {moved}
    ensures TicketCount(e, id) == TicketCount(db, id)
  {
    if id == row.screening {
      assert ReservedOn(db, id) == ReservedOn(e, id) + {row};
      assert CancelledOn(e, id) == CancelledOn(db, id) + {moved};
    } else {
      assert ReservedOn(db, id) == ReservedOn(e, id);
      assert CancelledOn(e, id) == CancelledOn(db, id);
    }
  }

  lemma CancelKeepsCount(db: Tables, req: Request, id: int)
    requires Consistent(db) && req.CancelReservation? && Update(db, req).reply == Ack
    ensures TicketCount(After(db, req), id) == TicketCount(db, id)
  {
    hide Update, Consistent, TicketCount;
    CancellationAnswer(db, req);
    MoveKeepsCount(db, After(db, req), Reservation(req.client, req.screening, req.seat),
                   Cancellation(db.lastCancelled + 1, req.client, req.screening, req.seat), id);
  }

  lemma OthersKeepCount(db: Tables, req: Request, id: int)
    requires Consistent(db) && HasScreening(After(db, req), id)
    requires !req.CancelReservation? && !(req.MakeReservation? && req.screening == id)
    ensures TicketCount(After(db, req), id) == TicketCount(db, id)
  {
    var e := After(db, req);
    assert ReservedOn(e, id) == ReservedOn(db, id) && CancelledOn(e, id) == CancelledOn(db, id) by {
      match req
      case DeleteScreening(_) => ScreeningDeleted(db, req);
      case DeleteMovie(_) => MovieDeleted(db, req);
      case _ =>
    }
  }

  /** One request changes the tickets of a living screening by one for a sale, else not. */
  lemma StepConserves(db: Tables, op: Op, id: int)
    requires Consistent(db) && Serves(db, op.req, op.reply) && HasScreening(After(db, op.req), id)
    ensures TicketCount(After(db, op.req), id) == TicketCount(db, id) + (if IsSale(op, id) then 1 else 0)
  {
    hide Consistent, HasScreening, TicketCount, Update;
    if IsQuery(op.req) {
    } else if op.reply != Ack && (op.req.MakeReservation? || op.req.CancelReservation?) {
      FailureChangesNothing(db, op.req);
    } else if IsSale(op, id) {
      SaleCounts(db, op.req, id);
    } else if op.req.CancelReservation? {
      CancelKeepsCount(db, op.req, id);
    } else {
      OthersKeepCount(db, op.req, id);
    }
  }

  lemma UnbornStays(db: Tables, op: Op, id: int)
    requires Consistent(db) && Serves(db, op.req, op.reply) && Unborn(After(db, op.req), id)
    ensures Unborn(db, id) && !IsSale(op, id)
    ensures !HasScreening(db, id) && !HasScreening(After(db, op.req), id)
  {}

  /** The screening still exists, or never did. */
  predicate NotDeleted(db: Tables, id: int) {
    HasScreening(db, id) || Unborn(db, id)
  }

  lemma {:induction false} ConservationSoFar(db: Tables, ops: seq<Op>, id: int)
    requires Consistent(db) && Legal(db, ops) && NotDeleted(Replay(db, ops), id)
    ensures TicketCount(Replay(db, ops), id) == TicketCount(db, id) + Sold(ops, id)
  {
    hide Consistent, HasScreening, TicketCount, After, Serves, IsSale;
    if ops == [] {
    } else {
      var front, op := ops[..|ops| - 1], ops[|ops| - 1];
      var mid := Replay(db, front);
      ReplayConsistent(db, front);
      StepIds(mid, op.req, id);
      ConservationSoFar(db, front, id) by {
        if !HasScreening(Replay(db, ops), id) { UnbornStays(mid, op, id); }
      }
      if HasScreening(Replay(db, ops), id) {
        StepConserves(mid, op, id);
      } else {
        UnbornStays(mid, op, id);
        NoTicketsWithoutScreening(mid, id);
        ReplayConsistent(db, ops);
        NoTicketsWithoutScreening(Replay(db, ops), id);
      }
    }
  }

  /** Over any history, the active and cancelled tickets of a screening that exists at
      the end are those it had at the start plus the acknowledged reservations on it. */
  lemma TicketsConserved(db: Tables, ops: seq<Op>, id: int)
    requires Consistent(db) && Legal(db, ops) && HasScreening(Replay(db, ops), id)
    ensures TicketCount(Replay(db, ops), id) == TicketCount(db, id) + Sold(ops, id)
  {
    ConservationSoFar(db, ops, id);
  }

  /** From an empty database they are just the acknowledged reservations. */
  lemma TicketsAreSales(ops: seq<Op>, id: int)
    requires Legal(EMPTY, ops) && HasScreening(Replay(EMPTY, ops), id)
    ensures TicketCount(Replay(EMPTY, ops), id) == Sold(ops, id)
  {
    EmptyConsistent();
    TicketsConserved(EMPTY, ops, id);
    NoTicketsWithoutScreening(EMPTY, id);
  }

  // ---- The AUTOINCREMENT marks ----

  /** How many new screenings were acknowledged. */
  function NewScreenings(ops: seq<Op>): nat {
    if ops == [] then 0
    else
      var last := ops[|ops| - 1];
      NewScreenings(ops[..|ops| - 1]) + (if last.req.AddScreening? && last.reply == Ack then 1 else 0)
  }

  /** How many cancellations were acknowledged. */
  function NewCancellations(ops: seq<Op>): nat {
    if ops == [] then 0
    else
      var last := ops[|ops| - 1];
      NewCancellations(ops[..|ops| - 1]) + (if last.req.CancelReservation? && last.reply == Ack then 1 else 0)
  }

  lemma StepMarks(db: Tables, req: Request)
    requires Consistent(db) && !IsQuery(req)
    ensures var h := Update(db, req);
      && h.db.lastScreening == db.lastScreening + (if req.AddScreening? && h.reply == Ack then 1 else 0)
      && h.db.lastCancelled == db.lastCancelled + (if req.CancelReservation? && h.reply == Ack then 1 else 0)
  {
    hide Consistent, Update;
    if Update(db, req).reply != Ack {
      FailureChangesNothing(db, req);
    }
    match req
    case AddMovie(_, _) => MovieAnswer(db, req);
    case DeleteMovie(_) => MovieDeleted(db, req);
    case AddScreening(_, _, _, _, _) => ScreeningAnswer(db, req);
    case DeleteScreening(_) => ScreeningDeleted(db, req);
    case MakeReservation(_, _, _) => ReservationAnswer(db, req);
    case CancelReservation(_, _, _) => CancellationAnswer(db, req);
  }

  /** Over any history each mark grows by exactly the acknowledged requests of its kind;
      nothing else uses up ids. */
  lemma {:induction false} MarksCount(db: Tables, ops: seq<Op>)
    requires Consistent(db) && Legal(db, ops)
    ensures Replay(db, ops).lastScreening == db.lastScreening + NewScreenings(ops)
    ensures Replay(db, ops).lastCancelled == db.lastCancelled + NewCancellations(ops)
  {
    hide Consistent, Update, Answers;
    if ops == [] {
    } else {
      var front, op := ops[..|ops| - 1], ops[|ops| - 1];
      MarksCount(db, front);
      ReplayConsistent(db, front);
      if !IsQuery(op.req) {
        StepMarks(Replay(db, front), op.req);
      }
    }
  }

  lemma {:induction false} CountsAtMost(ops: seq<Op>)
    ensures NewScreenings(ops) <= |ops| && NewCancellations(ops) <= |ops|
  {
    if ops == [] {
    } else {
      CountsAtMost(ops[..|ops| - 1]);
    }
  }

  /** From an empty database, a request fails for want of ids only after all of them were
      given out to acknowledged requests of its kind. */
  lemma UnknownErrorNeedsAllIds(ops: seq<Op>, k: nat)
    requires Legal(EMPTY, ops) && k < |ops| && ops[k].reply == Error(UnknownDbError)
    ensures || (ops[k].req.AddScreening? && NewScreenings(ops[..k]) == 0x7fff_ffff_ffff_ffff)
            || (ops[k].req.CancelReservation? && NewCancellations(ops[..k]) == 0x7fff_ffff_ffff_ffff)
  {
    hide Consistent, Update, Answers, Legal, Replay;
    EmptyConsistent();
    var base, req := Replay(EMPTY, ops[..k]), ops[k].req;
    LegalAt(EMPTY, ops, k);
    LegalFront(EMPTY, ops, k);
    ReplayConsistent(EMPTY, ops[..k]);
    MarksCount(EMPTY, ops[..k]);
    UnknownErrorMeans(base, req, ops[k].reply);
  }

  lemma UnknownErrorMeans(db: Tables, req: Request, reply: Reply)
    requires Consistent(db) && Serves(db, req, reply) && reply == Error(UnknownDbError)
    ensures (req.AddScreening? && db.lastScreening == MAX_ROWID)
         || (req.CancelReservation? && db.lastCancelled == MAX_ROWID)
  {}

  lemma {:induction false} LegalFront(db: Tables, ops: seq<Op>, k: nat)
    requires Legal(db, ops) && k <= |ops|
    ensures Legal(db, ops[..k])
  {
    hide Serves, Replay;
    if k == |ops| {
      assert ops[..k] == ops;
    } else {
      var front := ops[..|ops| - 1];
      LegalFront(db, front, k);
      assert front[..k] == ops[..k];
    }
  }
}
