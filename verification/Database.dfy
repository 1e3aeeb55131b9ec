/** The four tables with their constraints, and the meaning of each statement. A table
    is a set of rows; that keys are unique is an invariant, not a property of the type. */
module Database {
  import opened CStrings

  datatype Movie = Movie(name: Text, description: Text)
  datatype Screening = Screening(id: int, movie: Text, day: int, month: int, slot: int, hall: int)
  datatype Reservation = Reservation(client: Text, screening: int, seat: int)
  datatype Cancellation = Cancellation(id: int, client: Text, screening: int, seat: int)

  /** `lastScreening` and `lastCancelled` are the AUTOINCREMENT high-water marks. */
  datatype Tables = Tables(
    movies: set<Movie>,
    screenings: set<Screening>, lastScreening: nat,
    reservations: set<Reservation>,
    cancelled: set<Cancellation>, lastCancelled: nat)

  const MAX_ROWID: nat := 0x7fff_ffff_ffff_ffff

  predicate HasMovie(db: Tables, name: Text) {
    exists m :: m in db.movies && m.name == name
  }

  predicate HasScreening(db: Tables, id: int) {
    exists s :: s in db.screenings && s.id == id
  }

  predicate SeatTaken(db: Tables, id: int, seat: int) {
    exists r :: r in db.reservations && r.screening == id && r.seat == seat
  }

  // ---- Constraints ----

  predicate Checks(s: Screening) {
    1 <= s.day <= 31 && 1 <= s.month <= 12 && s.slot >= 1 && s.hall >= 1
  }

  predicate SameSlot(s: Screening, t: Screening) {
    s.day == t.day && s.month == t.month && s.slot == t.slot && s.hall == t.hall
  }

  ghost predicate MoviesOk(db: Tables) {
    forall m, n | m in db.movies && n in db.movies && m.name == n.name :: m == n
  }

  ghost predicate ScreeningsOk(db: Tables) {
    && (forall s | s in db.screenings :: Checks(s) && HasMovie(db, s.movie) && 1 <= s.id <= db.lastScreening)
    && (forall s, t | s in db.screenings && t in db.screenings && s.id == t.id :: s == t)
    && (forall s, t | s in db.screenings && t in db.screenings && SameSlot(s, t) :: s == t)
  }

  ghost predicate ReservationsOk(db: Tables) {
    && (forall r | r in db.reservations :: HasScreening(db, r.screening))
    && (forall r, q | r in db.reservations && q in db.reservations && r.screening == q.screening && r.seat == q.seat ::
          r == q)
  }

  ghost predicate CancelledOk(db: Tables) {
    && (forall c | c in db.cancelled :: HasScreening(db, c.screening) && 1 <= c.id <= db.lastCancelled)
    && (forall c, d | c in db.cancelled && d in db.cancelled && c.id == d.id :: c == d)
  }

  ghost predicate Consistent(db: Tables) {
    && MoviesOk(db) && ScreeningsOk(db) && ReservationsOk(db) && CancelledOk(db)
    && db.lastScreening <= MAX_ROWID && db.lastCancelled <= MAX_ROWID
  }

  /** The constraints of the schema in terms of rows and columns only. */
  lemma ConstraintsSpelledOut(db: Tables)
    ensures Consistent(db) <==>
      && (forall m, n | m in db.movies && n in db.movies && m.name == n.name :: m == n)
      && (forall s | s in db.screenings ::
            1 <= s.day <= 31 && 1 <= s.month <= 12 && 1 <= s.slot && 1 <= s.hall && 1 <= s.id <= db.lastScreening)
      && (forall s | s in db.screenings :: exists m :: m in db.movies && m.name == s.movie)
      && (forall s, t | s in db.screenings && t in db.screenings && s.id == t.id :: s == t)
      && (forall s, t | s in db.screenings && t in db.screenings
            && s.day == t.day && s.month == t.month && s.slot == t.slot && s.hall == t.hall :: s == t)
      && (forall r | r in db.reservations :: exists s :: s in db.screenings && s.id == r.screening)
      && (forall r, q | r in db.reservations && q in db.reservations
            && r.screening == q.screening && r.seat == q.seat :: r == q)
      && (forall c | c in db.cancelled :: exists s :: s in db.screenings && s.id == c.screening)
      && (forall c | c in db.cancelled :: 1 <= c.id <= db.lastCancelled)
      && (forall c, d | c in db.cancelled && d in db.cancelled && c.id == d.id :: c == d)
      && db.lastScreening <= 0x7fff_ffff_ffff_ffff && db.lastCancelled <= 0x7fff_ffff_ffff_ffff
  {}

  const EMPTY := Tables({}, {}, 0, {}, {}, 0)

  // ---- Statements ----

  /** What `execute_statements` reports: done, a constraint error, any other error. */
  datatype Outcome = Done | Constraint | Other

  datatype Executed = Executed(db: Tables, outcome: Outcome)

  function InsertMovie(db: Tables, name: Text, description: Text): Executed {
    if HasMovie(db, name) then Executed(db, Constraint)
    else Executed(db.(movies := db.movies + {Movie(name, description)}), Done)
  }

  function InsertScreening(db: Tables, movie: Text, day: int, month: int, slot: int, hall: int): Executed {
    var s := Screening(db.lastScreening + 1, movie, day, month, slot, hall);
    if db.lastScreening >= MAX_ROWID then Executed(db, Other)
    else if !Checks(s) || !HasMovie(db, movie) || (exists t :: t in db.screenings && SameSlot(s, t)) then
      Executed(db, Constraint)
    else
      Executed(db.(screenings := db.screenings + {s}, lastScreening := s.id), Done)
  }

  function InsertReservation(db: Tables, client: Text, id: int, seat: int): Executed {
    if SeatTaken(db, id, seat) || !HasScreening(db, id) then Executed(db, Constraint)
    else Executed(db.(reservations := db.reservations + {Reservation(client, id, seat)}), Done)
  }

  function InsertCancellation(db: Tables, client: Text, id: int, seat: int): Executed {
    if db.lastCancelled >= MAX_ROWID then Executed(db, Other)
    else if !HasScreening(db, id) then Executed(db, Constraint)
    else
      var c := Cancellation(db.lastCancelled + 1, client, id, seat);
      Executed(db.(cancelled := db.cancelled + {c}, lastCancelled := c.id), Done)
  }

  function DeleteReservation(db: Tables, client: Text, id: int, seat: int): Executed {
    Executed(db.(reservations := db.reservations - {Reservation(client, id, seat)}), Done)
  }

  /** Removing screenings takes their reservations and cancellations with them. */
  function Cascade(db: Tables, gone: set<int>): Tables {
    db.(screenings := (set s | s in db.screenings && s.id !in gone),
        reservations := (set r | r in db.reservations && r.screening !in gone),
        cancelled := (set c | c in db.cancelled && c.screening !in gone))
  }

  function DeleteScreening(db: Tables, id: int): Executed {
    Executed(Cascade(db, {id}), Done)
  }

  function DeleteMovie(db: Tables, name: Text): Executed {
    var gone := set s | s in db.screenings && s.movie == name :: s.id;
    Executed(Cascade(db, gone).(movies := (set m | m in db.movies && m.name != name)), Done)
  }

  // ---- Every statement keeps every constraint ----

  lemma InsertMovieKeeps(db: Tables, name: Text, description: Text)
    requires Consistent(db)
    ensures Consistent(InsertMovie(db, name, description).db)
  {}

  lemma InsertScreeningKeeps(db: Tables, movie: Text, day: int, month: int, slot: int, hall: int)
    requires Consistent(db)
    ensures Consistent(InsertScreening(db, movie, day, month, slot, hall).db)
  {}

  lemma InsertReservationKeeps(db: Tables, client: Text, id: int, seat: int)
    requires Consistent(db)
    ensures Consistent(InsertReservation(db, client, id, seat).db)
  {}

  lemma InsertCancellationKeeps(db: Tables, client: Text, id: int, seat: int)
    requires Consistent(db)
    ensures Consistent(InsertCancellation(db, client, id, seat).db)
  {}

  lemma DeleteReservationKeeps(db: Tables, client: Text, id: int, seat: int)
    requires Consistent(db)
    ensures Consistent(DeleteReservation(db, client, id, seat).db)
  {}

  lemma CascadeKeeps(db: Tables, gone: set<int>)
    requires Consistent(db)
    ensures Consistent(Cascade(db, gone))
  {}

  lemma DeleteMovieKeeps(db: Tables, name: Text)
    requires Consistent(db)
    ensures Consistent(DeleteMovie(db, name).db)
  {}

  // ---- An insert fails exactly when the row would break a constraint ----

  /** The screening row goes in exactly when the table with it is still consistent. */
  lemma ScreeningRejectedIffInconsistent(db: Tables, movie: Text, day: int, month: int, slot: int, hall: int)
    requires Consistent(db) && db.lastScreening < MAX_ROWID
    ensures var s := Screening(db.lastScreening + 1, movie, day, month, slot, hall);
      InsertScreening(db, movie, day, month, slot, hall).outcome == Done
      <==> Consistent(db.(screenings := db.screenings + {s}, lastScreening := s.id))
  {}

  /** The reservation row goes in exactly when the table with it is still consistent
      and did not hold it already. */
  lemma ReservationRejectedIffInconsistent(db: Tables, client: Text, id: int, seat: int)
    requires Consistent(db)
    ensures var r := Reservation(client, id, seat);
      InsertReservation(db, client, id, seat).outcome == Done
      <==> r !in db.reservations && Consistent(db.(reservations := db.reservations + {r}))
  {}
}
