/** The server's handlers on the shared database, and the building of lists and seat maps
    from the rows of a query. */
module Handlers {
  import opened CStrings
  import opened Database
  import opened Queries
  import opened Service
  import opened Packets
  import opened Items
  import opened LinkedList
  import opened QueryData
  import opened Marshalling

  // ---- Existence checks ----

  function MoviesNamed(db: Tables, name: Text): set<Movie> {
    set m | m in db.movies && m.name == name
  }

  function ScreeningsWithId(db: Tables, id: int): set<Screening> {
    set s | s in db.screenings && s.id == id
  }

  function SameReservations(db: Tables, client: Text, id: int, seat: int): set<Reservation> {
    set r | r in db.reservations && r.client == client && r.screening == id && r.seat == seat
  }

  /** The COUNT(*) each handler asks for, of the rows its WHERE clause selects. */
  function CountRows(db: Tables, req: Request): nat
    requires NeedsCheck(req)
  {
    match req
    case AddScreening(movie, _, _, _, _) => |MoviesNamed(db, movie)|
    case DeleteScreening(id) => |ScreeningsWithId(db, Atoi(id))|
    case MakeReservation(_, id, _) => |ScreeningsWithId(db, id)|
    case CancelReservation(client, id, seat) => |SameReservations(db, client, id, seat)|
  }

  lemma MoviesCounted(db: Tables, name: Text)
    ensures |MoviesNamed(db, name)| != 0 <==> HasMovie(db, name)
  {
    if HasMovie(db, name) {
      var m :| m in db.movies && m.name == name;
      assert m in MoviesNamed(db, name);
    }
    if MoviesNamed(db, name) != {} {
      var m :| m in MoviesNamed(db, name);
    }
  }

  lemma ScreeningsCounted(db: Tables, id: int)
    ensures |ScreeningsWithId(db, id)| != 0 <==> HasScreening(db, id)
  {
    if HasScreening(db, id) {
      var s :| s in db.screenings && s.id == id;
      assert s in ScreeningsWithId(db, id);
    }
    if ScreeningsWithId(db, id) != {} {
      var s :| s in ScreeningsWithId(db, id);
    }
  }

  /** A count other than 0 means that the handler's check succeeds. */
  lemma CountTells(db: Tables, req: Request)
    requires NeedsCheck(req)
    ensures CountRows(db, req) != 0 <==> Check(db, req)
  {
    match req
    case AddScreening(movie, _, _, _, _) => MoviesCounted(db, movie);
    case DeleteScreening(id) => ScreeningsCounted(db, Atoi(id));
    case MakeReservation(_, id, _) => ScreeningsCounted(db, id);
    case CancelReservation(client, id, seat) =>
      assert forall r ::
          r in SameReservations(db, client, id, seat) <==> r in db.reservations && r == Reservation(client, id, seat);
  }

  /** `assert_existence`: the count comes back as the text of the only cell of the only
      row. It is right for every handler's query. */
  method AssertExistence(db: Tables, req: Request) returns (found: bool)
    requires NeedsCheck(req)
    ensures found <==> Check(db, req)
  {
    var count := CountRows(db, req);
    var q := Query(1, [[Value(Decimal(count))]]);
    var row := q.GetNextRow();
    AtoiOfDecimal(count);
    CountTells(db, req);
    found := Atoi(row.row[0].text) != 0;
  }

  // ---- Statements ----

  /** The statements a handler puts together. */
  datatype Statement =
    | AddMovieRow(name: Text, description: Text)
    | DeleteMovieRow(name: Text)
    | AddScreeningRow(movie: Text, day: int, month: int, slot: int, hall: int)
    | DeleteScreeningRow(id: int)
    | AddReservationRow(client: Text, id: int, seat: int)
    | AddCancellationRow(client: Text, id: int, seat: int)
    | DeleteReservationRow(client: Text, id: int, seat: int)

  function Execute(db: Tables, stmt: Statement): Executed {
    match stmt
    case AddMovieRow(name, description) => InsertMovie(db, name, description)
    case DeleteMovieRow(name) => Database.DeleteMovie(db, name)
    case AddScreeningRow(movie, day, month, slot, hall) => InsertScreening(db, movie, day, month, slot, hall)
    case DeleteScreeningRow(id) => Database.DeleteScreening(db, id)
    case AddReservationRow(client, id, seat) => InsertReservation(db, client, id, seat)
    case AddCancellationRow(client, id, seat) => InsertCancellation(db, client, id, seat)
    case DeleteReservationRow(client, id, seat) => DeleteReservation(db, client, id, seat)
  }

  /** Statements run one after the other up to the first that fails. */
  function ExecuteAll(db: Tables, stmts: seq<Statement>): Executed
    decreases |stmts|
  {
    if stmts == [] then Executed(db, Done)
    else
      var e := Execute(db, stmts[0]);
      if e.outcome != Done then e else ExecuteAll(e.db, stmts[1..])
  }

  /** Of two statements, the second runs only after the first succeeded. */
  lemma ExecuteBoth(db: Tables, first: Statement, second: Statement)
    ensures var e := Execute(db, first);
      ExecuteAll(db, [first, second]) == if e.outcome == Done then Execute(e.db, second) else e
  {
    hide Execute;
    assert [first, second][1..] == [second];
    var e := Execute(db, first);
    assert ExecuteAll(e.db, [second]) == Execute(e.db, second) by {
      var f := Execute(e.db, second);
      assert [second][1..] == [] && ExecuteAll(f.db, []) == Executed(f.db, Done);
    }
  }

  /** The process-wide database session. */
  class Cinema {
    var db: Tables

    /** `execute_statements`. What ran before a failure stays. */
    method ExecuteStatements(stmts: seq<Statement>) returns (outcome: Outcome)
      modifies this
      ensures Executed(db, outcome) == ExecuteAll(old(db), stmts)
    {
      for i := 0 to |stmts|
        invariant ExecuteAll(old(db), stmts) == ExecuteAll(db, stmts[i..])
      {
        var e := Execute(db, stmts[i]);
        db := e.db;
        if e.outcome != Done {
          return e.outcome;
        }
        assert stmts[i..][1..] == stmts[i + 1..];
      }
      outcome := Done;
    }

    /** `do_stmnt_and_ack`: the effect of the statements and the answer that goes out. */
    method ExecuteAndAck(stmts: seq<Statement>) returns (reply: Reply)
      modifies this
      ensures var e := ExecuteAll(old(db), stmts);
        db == e.db && reply == Acknowledge(e.outcome)
    {
      var outcome := ExecuteStatements(stmts);
      if outcome.Done? {
        reply := Ack;
      } else {
        var err := if outcome.Constraint? then ConstraintViolation else UnknownDbError;
        reply := Error(err);
      }
    }

    method AddMovie(name: Text, description: Text) returns (reply: Reply)
      modifies this
      ensures Handled(db, reply) == Update(old(db), Service.AddMovie(name, description))
    {
      reply := ExecuteAndAck([AddMovieRow(name, description)]);
    }

    method DeleteMovie(name: Text) returns (reply: Reply)
      modifies this
      ensures Handled(db, reply) == Update(old(db), Service.DeleteMovie(name))
    {
      reply := ExecuteAndAck([DeleteMovieRow(name)]);
    }

    method AddScreening(movie: Text, day: Char, month: Char, slot: Char, hall: Char) returns (reply: Reply)
      modifies this
      ensures Handled(db, reply) == Update(old(db), Service.AddScreening(movie, day, month, slot, hall))
    {
      var found := AssertExistence(db, Service.AddScreening(movie, day, month, slot, hall));
      if !found {
        return Error(NoSuchElement);
      }
      reply := ExecuteAndAck([AddScreeningRow(movie, day, month, slot, hall)]);
    }

    method DeleteScreening(id: Text) returns (reply: Reply)
      modifies this
      ensures Handled(db, reply) == Update(old(db), Service.DeleteScreening(id))
    {
      var found := AssertExistence(db, Service.DeleteScreening(id));
      if !found {
        return Error(NoSuchElement);
      }
      reply := ExecuteAndAck([DeleteScreeningRow(Atoi(id))]);
    }

    method MakeReservation(client: Text, screening: int, seat: Char) returns (reply: Reply)
      modifies this
      ensures Handled(db, reply) == Update(old(db), Service.MakeReservation(client, screening, seat))
    {
      var found := AssertExistence(db, Service.MakeReservation(client, screening, seat));
      if !found {
        return Error(NoSuchElement);
      }
      reply := ExecuteAndAck([AddReservationRow(client, screening, seat)]);
    }

    /** Two statements in one call to the database. */
    method CancelReservation(client: Text, screening: int, seat: Char) returns (reply: Reply)
      modifies this
      ensures Handled(db, reply) == Update(old(db), Service.CancelReservation(client, screening, seat))
    {
      var found := AssertExistence(db, Service.CancelReservation(client, screening, seat));
      if !found {
        return Error(NoSuchElement);
      }
      var add, delete := AddCancellationRow(client, screening, seat), DeleteReservationRow(client, screening, seat);
      ExecuteBoth(db, add, delete);
      reply := ExecuteAndAck([add, delete]);
    }

    /** The update half of `process_request`'s dispatch. */
    method HandleUpdate(req: Request) returns (reply: Reply)
      requires !IsQuery(req)
      modifies this
      ensures Handled(db, reply) == Update(old(db), req)
      ensures old(Consistent(db)) ==> Consistent(db)
      ensures reply != Ack ==> db == old(db)
    {
      UpdateKeepsAll(db, req);
      match req
      case AddMovie(name, description) => reply := AddMovie(name, description);
      case DeleteMovie(name) => reply := DeleteMovie(name);
      case AddScreening(movie, day, month, slot, hall) => reply := AddScreening(movie, day, month, slot, hall);
      case DeleteScreening(id) => reply := DeleteScreening(id);
      case MakeReservation(client, id, seat) => reply := MakeReservation(client, id, seat);
      case CancelReservation(client, id, seat) => reply := CancelReservation(client, id, seat);
    }
  }

  lemma UpdateKeepsAll(db: Tables, req: Request)
    requires !IsQuery(req)
    ensures Consistent(db) ==> Consistent(Update(db, req).db)
    ensures Update(db, req).reply != Ack ==> Update(db, req).db == db
  {
    if Consistent(db) {
      UpdateKeepsConsistent(db, req);
    }
  }

  // ---- Lists from rows ----

  function Cols(kind: Kind): nat {
    match kind
    case OfScreening => 5
    case OfMovie => 2
    case OfTicket => 7
  }

  /** A row of the query behind a list of this kind, without NULLs. */
  predicate RowOk(kind: Kind, row: Row) {
    |row| == Cols(kind) && forall c | c in row :: c.Value?
  }

  /** The item a list builder makes of a row. */
  function ItemOfRow(kind: Kind, row: Row): Item
    requires RowOk(kind, row)
  {
    match kind
    case OfScreening =>
      ScreeningItem(row[0].text, ToChar(Atoi(row[1].text)), ToChar(Atoi(row[2].text)),
                    ToChar(Atoi(row[3].text)), ToChar(Atoi(row[4].text)))
    case OfMovie => MovieItem(row[0].text, row[1].text)
    case OfTicket =>
      TicketItem(Atoi(row[0].text), row[1].text, row[2].text, ToChar(Atoi(row[3].text)), ToChar(Atoi(row[4].text)),
                 ToChar(Atoi(row[5].text)), ToChar(Atoi(row[6].text)))
  }

  function ItemsOfRows(kind: Kind, rows: seq<Row>): (items: seq<Item>)
    requires forall row | row in rows :: RowOk(kind, row)
    ensures |items| == |rows|
    ensures forall i | 0 <= i < |rows| :: items[i] == ItemOfRow(kind, rows[i])
  {
    seq(|rows|, i requires 0 <= i < |rows| => ItemOfRow(kind, rows[i]))
  }

  /** `get_screening_list`, `get_movie_list` and `get_ticket_list`: capture the rows, then
      take them out one by one and append what they say. */
  method BuildList(kind: Kind, result: seq<Row>) returns (list: List<Item>)
    requires forall row | row in result :: RowOk(kind, row)
    ensures list.Valid() && fresh(list) && list.Contents() == ItemsOfRows(kind, result)
  {
    hide ItemOfRow, ItemsOfRows, Cols, QueryData.Valid, QueryData.Captured, List.Valid, List.Contents;
    ghost var items := ItemsOfRows(kind, result);
    var q := Query(Cols(kind), result);
    list := new List();
    var next := q.GetNextRow();
    ghost var done := 0;
    while next.SomeRow?
      invariant q.Valid() && fresh(q) && q.Captured() == result
      invariant list.Valid() && fresh(list) && fresh(list.nodes)
      invariant done <= |result|
      invariant next == if done < |result| then SomeRow(result[done]) else NoRow
      invariant q.cursor == if done < |result| then done + 1 else |result|
      invariant list.Contents() == items[..done]
      decreases |result| - done
    {
      list.Add(ItemOfRow(kind, next.row));
      done := done + 1;
      next := q.GetNextRow();
    }
  }

  // ---- The rows SQLite delivers ----

  function Field(n: int): Cell { Value(Decimal(n)) }

  function ScreeningRow(s: Screening): Row {
    [Field(s.id), Field(s.day), Field(s.month), Field(s.slot), Field(s.hall)]
  }

  function MovieRow(m: Movie): Row {
    [Value(m.name), Value(m.description)]
  }

  function TicketRow(t: Ticket): Row {
    var s := t.screening;
    [Field(t.seat), Field(s.id), Value(s.movie), Field(s.day), Field(s.month), Field(s.slot), Field(s.hall)]
  }

  /** Printing a column and reading it back gives the stored number. */
  lemma ScreeningRowReads(s: Screening)
    ensures RowOk(OfScreening, ScreeningRow(s)) && ItemOfRow(OfScreening, ScreeningRow(s)) == ScreeningRowItem(s)
  {
    AtoiOfDecimal(s.day);
    AtoiOfDecimal(s.month);
    AtoiOfDecimal(s.slot);
    AtoiOfDecimal(s.hall);
  }

  lemma TicketRowReads(t: Ticket)
    ensures RowOk(OfTicket, TicketRow(t)) && ItemOfRow(OfTicket, TicketRow(t)) == TicketRowItem(t)
  {
    AtoiOfDecimal(t.seat);
    AtoiOfDecimal(t.screening.day);
    AtoiOfDecimal(t.screening.month);
    AtoiOfDecimal(t.screening.slot);
    AtoiOfDecimal(t.screening.hall);
  }

  lemma MovieRowReads(m: Movie)
    ensures RowOk(OfMovie, MovieRow(m)) && ItemOfRow(OfMovie, MovieRow(m)) == MovieRowItem(m)
  {}

  /** `get_screenings` up to the transfer: the list holds one item per row, in order. */
  method ScreeningListFor(result: seq<Row>, ghost rows: seq<Screening>) returns (list: List<Item>)
    requires |result| == |rows| && forall i | 0 <= i < |rows| :: result[i] == ScreeningRow(rows[i])
    ensures list.Valid() && fresh(list) && list.Contents() == ScreeningItems(rows)
  {
    forall i | 0 <= i < |rows|
      ensures RowOk(OfScreening, result[i]) && ItemOfRow(OfScreening, result[i]) == ScreeningRowItem(rows[i])
    {
      ScreeningRowReads(rows[i]);
    }
    list := BuildList(OfScreening, result);
  }

  /** `get_movies` up to the transfer. */
  method MovieListFor(result: seq<Row>, ghost rows: seq<Movie>) returns (list: List<Item>)
    requires |result| == |rows| && forall i | 0 <= i < |rows| :: result[i] == MovieRow(rows[i])
    ensures list.Valid() && fresh(list) && list.Contents() == MovieItems(rows)
  {
    forall i | 0 <= i < |rows|
      ensures RowOk(OfMovie, result[i]) && ItemOfRow(OfMovie, result[i]) == MovieRowItem(rows[i])
    {
      MovieRowReads(rows[i]);
    }
    list := BuildList(OfMovie, result);
  }

  /** `get_reservations` up to the transfer. */
  method TicketListFor(result: seq<Row>, ghost rows: seq<Ticket>) returns (list: List<Item>)
    requires |result| == |rows| && forall i | 0 <= i < |rows| :: result[i] == TicketRow(rows[i])
    ensures list.Valid() && fresh(list) && list.Contents() == TicketItems(rows)
  {
    forall i | 0 <= i < |rows|
      ensures RowOk(OfTicket, result[i]) && ItemOfRow(OfTicket, result[i]) == TicketRowItem(rows[i])
    {
      TicketRowReads(rows[i]);
    }
    list := BuildList(OfTicket, result);
  }

  // ---- The seat map ----

  /** The loop of `send_seating_info`: `taken` are the seats the query returns. */
  method MarkSeats(result: seq<Row>, ghost taken: seq<int>) returns (seats: array<Char>)
    requires |result| == |taken|
    requires forall i | 0 <= i < |taken| :: result[i] == [Field(taken[i])] && 0 <= taken[i] < MAX_SEATS
    ensures fresh(seats) && seats.Length == MAX_SEATS
    ensures forall i | 0 <= i < MAX_SEATS :: seats[i] == if i in taken then 1 else 0
  {
    hide QueryData.Valid, QueryData.Captured, Atoi, Decimal;
    var q := Query(1, result);
    seats := new Char[MAX_SEATS](i => 0);
    var next := q.GetNextRow();
    ghost var done := 0;
    while next.SomeRow?
      invariant q.Valid() && fresh(q) && q.Captured() == result
      invariant done <= |result|
      invariant next == if done < |result| then SomeRow(result[done]) else NoRow
      invariant q.cursor == if done < |result| then done + 1 else |result|
      invariant forall i | 0 <= i < MAX_SEATS :: seats[i] == if i in taken[..done] then 1 else 0
      decreases |result| - done
    {
      AtoiOfDecimal(taken[done]);
      seats[Atoi(next.row[0].text)] := 1;
      done := done + 1;
      assert taken[..done] == taken[..done - 1] + [taken[done - 1]];
      next := q.GetNextRow();
    }
    assert taken[..done] == taken;
  }

  /** `send_seats`: the packet buffer is not cleared beforehand. */
  method SendSeats(con: Connection, seats: array<Char>) returns (ghost p: Packet)
    requires seats.Length == MAX_SEATS
    modifies con
    ensures con.sent == old(con.sent) + [p]
    ensures p[0] == OK && p[1..1 + MAX_SEATS] == seats[..]
  {
    var buf := new Char[PACKET_LENGTH];
    buf[0] := OK;
    forall i | 0 <= i < MAX_SEATS {
      buf[1 + i] := seats[i];
    }
    p := buf[..];
    con.Send(buf);
  }

  const HALL_SEATS := 64

  /** `get_hall`, from the reply in the buffer on. */
  method ReadHall(buf: array<Char>) returns (seats: Option<seq<Char>>)
    requires buf.Length == PACKET_LENGTH
    ensures seats == if buf[0] == OK then Some(buf[1..1 + HALL_SEATS]) else None
  {
    if buf[0] != OK {
      return None;
    }
    var hall := new Char[HALL_SEATS](i => 0);
    for i := 0 to HALL_SEATS
      invariant hall[..i] == buf[1..1 + i]
    {
      hall[i] := buf[1 + i];
    }
    assert hall[..] == hall[..HALL_SEATS];
    return Some(hall[..]);
  }
}
