/** What the server does for each request, taken by itself: the handlers as sequences of
    a check and one or two statements, and their effect as a whole. */
module Service {
  import opened CStrings
  import opened Database
  import opened Queries

  /** A decoded request. Ids of screenings to delete or to show stay text, as received. */
  datatype Request =
    | AddMovie(name: Text, description: Text)
    | DeleteMovie(name: Text)
    | AddScreening(movie: Text, day: Char, month: Char, slot: Char, hall: Char)
    | DeleteScreening(id: Text)
    | MakeReservation(client: Text, screening: int, seat: Char)
    | CancelReservation(client: Text, screening: int, seat: Char)
    | ListScreenings(movie: Text)
    | ShowSeats(id: Text)
    | ListMovies
    | ListReservations(client: Text)
    | ListCancelled(client: Text)

  datatype ServerError = InvalidRequest | ConstraintViolation | NoSuchElement | UnknownDbError | OtherError

  datatype Reply =
    | Ack
    | Error(error: ServerError)
    | Screenings(screenings: seq<Screening>)
    | Movies(movies: seq<Movie>)
    | Tickets(tickets: seq<Ticket>)
    | Seats(seats: seq<Char>)

  predicate IsQuery(req: Request) {
    req.ListScreenings? || req.ShowSeats? || req.ListMovies? || req.ListReservations? || req.ListCancelled?
  }

  // ---- The steps of a handler ----

  predicate NeedsCheck(req: Request) {
    req.AddScreening? || req.DeleteScreening? || req.MakeReservation? || req.CancelReservation?
  }

  /** `assert_existence` on the COUNT(*) query of the handler. */
  predicate Check(db: Tables, req: Request)
    requires NeedsCheck(req)
  {
    match req
    case AddScreening(movie, _, _, _, _) => HasMovie(db, movie)
    case DeleteScreening(id) => HasScreening(db, Atoi(id))
    case MakeReservation(_, id, _) => HasScreening(db, id)
    case CancelReservation(client, id, seat) => Reservation(client, id, seat) in db.reservations
  }

  /** The first statement of the handler. */
  function First(db: Tables, req: Request): Executed
    requires !IsQuery(req)
  {
    match req
    case AddMovie(name, description) => InsertMovie(db, name, description)
    case DeleteMovie(name) => Database.DeleteMovie(db, name)
    case AddScreening(movie, day, month, slot, hall) => InsertScreening(db, movie, day, month, slot, hall)
    case DeleteScreening(id) => Database.DeleteScreening(db, Atoi(id))
    case MakeReservation(client, id, seat) => InsertReservation(db, client, id, seat)
    case CancelReservation(client, id, seat) => InsertCancellation(db, client, id, seat)
  }

  /** The second statement of a cancellation. */
  function Second(db: Tables, req: Request): Executed
    requires req.CancelReservation?
  {
    DeleteReservation(db, req.client, req.screening, req.seat)
  }

  /** The acknowledgement of `do_stmnt_and_ack`. */
  function Acknowledge(outcome: Outcome): Reply {
    match outcome
    case Done => Ack
    case Constraint => Error(ConstraintViolation)
    case Other => Error(UnknownDbError)
  }

  datatype Handled = Handled(db: Tables, reply: Reply)

  /** A whole update handler with nobody else at work. */
  function Update(db: Tables, req: Request): Handled
    requires !IsQuery(req)
  {
    if NeedsCheck(req) && !Check(db, req) then Handled(db, Error(NoSuchElement))
    else
      var e := First(db, req);
      if req.CancelReservation? && e.outcome == Done then
        var f := Second(e.db, req);
        Handled(f.db, Acknowledge(f.outcome))
      else Handled(e.db, Acknowledge(e.outcome))
  }

  /** What a query may be answered. */
  ghost predicate Answers(db: Tables, req: Request, reply: Reply)
    requires IsQuery(req)
  {
    match req
    case ListScreenings(movie) => reply.Screenings? && ScreeningList(db, movie, reply.screenings)
    case ShowSeats(id) => reply.Seats? && SeatMap(db, Atoi(id), reply.seats)
    case ListMovies => reply.Movies? && MovieList(db, reply.movies)
    case ListReservations(client) => reply.Tickets? && TicketList(db, client, false, reply.tickets)
    case ListCancelled(client) => reply.Tickets? && TicketList(db, client, true, reply.tickets)
  }

  /** The tables after a request. */
  function After(db: Tables, req: Request): Tables {
    if IsQuery(req) then db else Update(db, req).db
  }

  /** The sequential specification of the server. */
  ghost predicate Serves(db: Tables, req: Request, reply: Reply) {
    if IsQuery(req) then Answers(db, req, reply) else reply == Update(db, req).reply
  }

  // ---- Constraints over whole histories ----

  lemma FirstKeeps(db: Tables, req: Request)
    requires Consistent(db) && !IsQuery(req)
    ensures Consistent(First(db, req).db)
  {
    match req
    case AddMovie(name, description) => InsertMovieKeeps(db, name, description);
    case DeleteMovie(name) => DeleteMovieKeeps(db, name);
    case AddScreening(movie, day, month, slot, hall) => InsertScreeningKeeps(db, movie, day, month, slot, hall);
    case DeleteScreening(id) => CascadeKeeps(db, {Atoi(id)});
    case MakeReservation(client, id, seat) => InsertReservationKeeps(db, client, id, seat);
    case CancelReservation(client, id, seat) => InsertCancellationKeeps(db, client, id, seat);
  }

  /** Every handler keeps every constraint of the schema, cascades included. */
  lemma UpdateKeepsConsistent(db: Tables, req: Request)
    requires Consistent(db)
    ensures Consistent(After(db, req))
  {
    hide Consistent, First, Check;
    if !IsQuery(req) {
      FirstKeeps(db, req);
      if req.CancelReservation? {
        DeleteReservationKeeps(First(db, req).db, req.client, req.screening, req.seat);
      }
    }
  }

  /** A request together with the reply it got. */
  datatype Op = Op(id: nat, req: Request, reply: Reply)

  /** The tables after a history of requests. */
  function Replay(db: Tables, ops: seq<Op>): Tables {
    if ops == [] then db else After(Replay(db, ops[..|ops| - 1]), ops[|ops| - 1].req)
  }

  /** Every reply of the history is the one the sequential specification gives. */
  ghost predicate Legal(db: Tables, ops: seq<Op>) {
    ops == []
    || (Legal(db, ops[..|ops| - 1]) && Serves(Replay(db, ops[..|ops| - 1]), ops[|ops| - 1].req, ops[|ops| - 1].reply))
  }

  lemma {:induction false} ReplayConsistent(db: Tables, ops: seq<Op>)
    requires Consistent(db)
    ensures Consistent(Replay(db, ops))
  {
    hide Consistent, After;
    if ops != [] {
      ReplayConsistent(db, ops[..|ops| - 1]);
      UpdateKeepsConsistent(Replay(db, ops[..|ops| - 1]), ops[|ops| - 1].req);
    }
  }

  /** Each reply of a legal history is right at its place. */
  lemma {:induction false} LegalAt(db: Tables, ops: seq<Op>, k: nat)
    requires Legal(db, ops) && k < |ops|
    ensures Serves(Replay(db, ops[..k]), ops[k].req, ops[k].reply)
  {
    hide Serves, Replay;
    var front := ops[..|ops| - 1];
    if k < |front| {
      LegalAt(db, front, k);
      assert front[..k] == ops[..k];
    }
  }

  lemma EmptyConsistent()
    ensures Consistent(EMPTY)
  {}

  // ---- Failures change nothing ----

  /** An answer other than OK leaves the tables as they were. */
  lemma FailureChangesNothing(db: Tables, req: Request)
    requires !IsQuery(req) && Update(db, req).reply != Ack
    ensures After(db, req) == db
  {}

  // ---- Exact answers ----

  /** A reservation is acknowledged exactly when its row was not there and now is; it is
      refused exactly when the screening does not exist or the seat is taken. */
  lemma ReservationAnswer(db: Tables, req: Request)
    requires Consistent(db) && req.MakeReservation?
    ensures var h := Update(db, req);
      var row := Reservation(req.client, req.screening, req.seat);
      && (h.reply == Ack <==> row !in db.reservations && row in h.db.reservations)
      && (h.reply == Ack ==> h.db == db.(reservations := db.reservations + {row}))
      && (h.reply == Error(NoSuchElement) <==> !HasScreening(db, req.screening))
      && (h.reply == Error(ConstraintViolation) <==> SeatTaken(db, req.screening, req.seat))
      && (h.reply == Ack || h.reply == Error(NoSuchElement) || h.reply == Error(ConstraintViolation))
  {}

  /** A cancellation moves its row from one table to the other, or finds no row, or finds
      the cancellation ids used up. It never violates a constraint: the reservation's
      foreign key implies the cancellation's. */
  lemma CancellationAnswer(db: Tables, req: Request)
    requires Consistent(db) && req.CancelReservation?
    ensures var h := Update(db, req);
      var row := Reservation(req.client, req.screening, req.seat);
      var moved := Cancellation(db.lastCancelled + 1, req.client, req.screening, req.seat);
      && (h.reply == Error(NoSuchElement) <==> row !in db.reservations)
      && (h.reply == Error(UnknownDbError) <==> row in db.reservations && db.lastCancelled == MAX_ROWID)
      && (h.reply == Ack <==> row in db.reservations && db.lastCancelled < MAX_ROWID)
      && h.reply != Error(ConstraintViolation)
      && (h.reply == Ack ==> moved !in db.cancelled)
      && (h.reply == Ack ==> !SeatTaken(h.db, req.screening, req.seat))
      && (h.reply == Ack ==> h.db == db.(reservations := db.reservations - {row},
                                         cancelled := db.cancelled + {moved}, lastCancelled := moved.id))
  {}

  /** A new screening is refused exactly for a missing movie, for an occupied or
      impossible slot, or when the ids are used up; otherwise it gets a fresh id. */
  lemma ScreeningAnswer(db: Tables, req: Request)
    requires Consistent(db) && req.AddScreening?
    ensures var h := Update(db, req);
      var row := Screening(db.lastScreening + 1, req.movie, req.day, req.month, req.slot, req.hall);
      var possible := 1 <= req.day <= 31 && 1 <= req.month <= 12 && 1 <= req.slot && 1 <= req.hall;
      var occupied := exists t :: t in db.screenings
                        && t.day == req.day && t.month == req.month && t.slot == req.slot && t.hall == req.hall;
      && (h.reply == Error(NoSuchElement) <==> !HasMovie(db, req.movie))
      && (h.reply == Error(UnknownDbError) <==> HasMovie(db, req.movie) && db.lastScreening == MAX_ROWID)
      && (h.reply == Error(ConstraintViolation) <==>
            HasMovie(db, req.movie) && db.lastScreening < MAX_ROWID && (!possible || occupied))
      && (h.reply == Ack <==> HasMovie(db, req.movie) && db.lastScreening < MAX_ROWID && possible && !occupied)
      && (h.reply == Ack ==> h.db == db.(screenings := db.screenings + {row}, lastScreening := row.id))
  {}

  /** Deleting a screening removes it with everything that refers to it and nothing else. */
  lemma ScreeningDeleted(db: Tables, req: Request)
    requires Consistent(db) && req.DeleteScreening?
    ensures var h := Update(db, req);
      var id := Atoi(req.id);
      && (h.reply == Ack <==> HasScreening(db, id))
      && (h.reply == Error(NoSuchElement) <==> !HasScreening(db, id))
      && !HasScreening(h.db, id)
      && (forall s :: s in h.db.screenings <==> s in db.screenings && s.id != id)
      && (forall r :: r in h.db.reservations <==> r in db.reservations && r.screening != id)
      && (forall c :: c in h.db.cancelled <==> c in db.cancelled && c.screening != id)
      && h.db.movies == db.movies
      && h.db.lastScreening == db.lastScreening && h.db.lastCancelled == db.lastCancelled
  {}

  /** Deleting a movie always succeeds. What refers to it through its screenings goes;
      everything about other movies stays. */
  lemma MovieDeleted(db: Tables, req: Request)
    requires Consistent(db) && req.DeleteMovie?
    ensures var h := Update(db, req);
      && h.reply == Ack && !HasMovie(h.db, req.name)
      && (forall m :: m in h.db.movies <==> m in db.movies && m.name != req.name)
      && (forall s :: s in h.db.screenings <==> s in db.screenings && s.movie != req.name)
      && (forall r :: r in h.db.reservations <==> r in db.reservations && HasScreening(h.db, r.screening))
      && (forall c :: c in h.db.cancelled <==> c in db.cancelled && HasScreening(h.db, c.screening))
      && h.db.lastScreening == db.lastScreening && h.db.lastCancelled == db.lastCancelled
  {}

  /** A movie is refused exactly when its name is taken. */
  lemma MovieAnswer(db: Tables, req: Request)
    requires req.AddMovie?
    ensures var h := Update(db, req);
      && (h.reply == Ack <==> !HasMovie(db, req.name))
      && (h.reply == Error(ConstraintViolation) <==> HasMovie(db, req.name))
      && (h.reply == Ack ==> h.db == db.(movies := db.movies + {Movie(req.name, req.description)}))
  {}

  /** Every query has an answer. */
  lemma QueryAnswerable(db: Tables, req: Request) returns (reply: Reply)
    requires IsQuery(req)
    ensures Answers(db, req, reply)
  {
    match req
    case ListScreenings(movie) =>
      var rows := ListExists(ScreeningsOf(db, movie), KeyOf);
      reply := Screenings(rows);
    case ShowSeats(id) =>
      reply := Seats(seq(MAX_SEATS, i => if SeatTaken(db, Atoi(id), i) then 1 else 0));
    case ListMovies =>
      var rows := ListExists(db.movies, (m: Movie) => Key(0, 0, 0, 0));
      reply := Movies(rows);
    case ListReservations(client) =>
      var rows := TicketListExists(db, client, false);
      reply := Tickets(rows);
    case ListCancelled(client) =>
      var rows := TicketListExists(db, client, true);
      reply := Tickets(rows);
  }

  // ---- What each query may be answered, in rows and columns ----

  /** The screenings of the movie, strictly by month, then day, then slot, then hall. */
  lemma ScreeningsAnswer(db: Tables, movie: Text, reply: Reply)
    requires Consistent(db)
    ensures Serves(db, ListScreenings(movie), reply) <==>
      && reply.Screenings?
      && (forall s :: s in reply.screenings <==> s in db.screenings && s.movie == movie)
      && forall i, j | 0 <= i < j < |reply.screenings| :: var s, t := reply.screenings[i], reply.screenings[j];
        && s.month <= t.month
        && (s.month == t.month ==> s.day <= t.day)
        && (s.month == t.month && s.day == t.day ==> s.slot <= t.slot)
        && (s.month == t.month && s.day == t.day && s.slot == t.slot ==> s.hall < t.hall)
  {
    hide Consistent, ScreeningList;
    if reply.Screenings? {
      ScreeningListIncreases(db, movie, reply.screenings);
    }
  }

  /** Each film once. */
  lemma MoviesAnswer(db: Tables, reply: Reply)
    ensures Serves(db, ListMovies, reply) <==>
      && reply.Movies?
      && (forall m :: m in reply.movies <==> m in db.movies)
      && forall i, j | 0 <= i < j < |reply.movies| :: reply.movies[i] != reply.movies[j]
  {
    hide MovieList;
    if reply.Movies? {
      MovieListExact(db, reply.movies);
    }
  }

  /** One byte per seat, 1 for a reserved seat and 0 for a free one. */
  lemma SeatsAnswer(db: Tables, id: Text, reply: Reply)
    ensures Serves(db, ShowSeats(id), reply) <==>
      && reply.Seats? && |reply.seats| == 300
      && (forall i | 0 <= i < 300 :: reply.seats[i] == 0 || reply.seats[i] == 1)
      && forall i | 0 <= i < 300 ::
        reply.seats[i] == 1 <==> exists r :: r in db.reservations && r.screening == Atoi(id) && r.seat == i
  {}

  /** Each reservation of the client once, by the date of its screening. */
  lemma ReservationsAnswer(db: Tables, client: Text, reply: Reply)
    requires Consistent(db)
    ensures Serves(db, ListReservations(client), reply) <==>
      && reply.Tickets?
      && (forall t: Ticket :: t in reply.tickets <==>
            t.screening in db.screenings && Reservation(client, t.screening.id, t.seat) in db.reservations)
      && (forall i, j | 0 <= i < j < |reply.tickets| :: reply.tickets[i] != reply.tickets[j])
      && forall i, j | 0 <= i < j < |reply.tickets| ::
        var s, t := reply.tickets[i].screening, reply.tickets[j].screening;
        && s.month <= t.month
        && (s.month == t.month ==> s.day <= t.day)
        && (s.month == t.month && s.day == t.day ==> s.slot <= t.slot)
        && (s.month == t.month && s.day == t.day && s.slot == t.slot ==> s.hall <= t.hall)
  {
    hide Consistent, TicketList;
    if reply.Tickets? {
      ReservationListExact(db, client, reply.tickets);
    }
  }

  /** Each ticket of the client as often as it was cancelled, by the date of its screening. */
  lemma CancelledAnswer(db: Tables, client: Text, reply: Reply)
    requires Consistent(db)
    ensures Serves(db, ListCancelled(client), reply) <==>
      && reply.Tickets?
      && (forall t: Ticket :: multiset(reply.tickets)[t] ==
            if t.screening !in db.screenings then 0
            else |set c | c in db.cancelled && c.client == client && c.screening == t.screening.id && c.seat == t.seat|)
      && forall i, j | 0 <= i < j < |reply.tickets| ::
        var s, t := reply.tickets[i].screening, reply.tickets[j].screening;
        && s.month <= t.month
        && (s.month == t.month ==> s.day <= t.day)
        && (s.month == t.month && s.day == t.day ==> s.slot <= t.slot)
        && (s.month == t.month && s.day == t.day && s.slot == t.slot ==> s.hall <= t.hall)
  {
    hide Consistent, TicketList;
    if reply.Tickets? {
      CancelledListExact(db, client, reply.tickets);
    }
  }

  /** In all there are as many as cancellations of the client. */
  lemma CancelledAnswerLength(db: Tables, client: Text, reply: Reply)
    requires Consistent(db) && Serves(db, ListCancelled(client), reply)
    ensures |reply.tickets| == |set c | c in db.cancelled && c.client == client|
  {
    hide Consistent, TicketList;
    CancelledListLength(db, client, reply.tickets);
  }
}
