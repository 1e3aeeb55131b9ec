/** What each SELECT may return: its rows in some order its ORDER BY allows. */
module Queries {
  import opened CStrings
  import opened Database

  /** A seat on a screening, as a client sees it. */
  datatype Ticket = Ticket(seat: int, screening: Screening)

  /** The columns of ORDER BY mes, dia, slot, sala. */
  datatype Key = Key(month: int, day: int, slot: int, hall: int)

  function KeyOf(s: Screening): Key { Key(s.month, s.day, s.slot, s.hall) }

  predicate Below(a: Key, b: Key) {
    || a.month < b.month
    || (a.month == b.month && a.day < b.day)
    || (a.month == b.month && a.day == b.day && a.slot < b.slot)
    || (a.month == b.month && a.day == b.day && a.slot == b.slot && a.hall < b.hall)
  }

  ghost predicate Sorted<T(!new)>(order: seq<T>, key: T -> Key) {
    forall i, j | 0 <= i < j < |order| :: !Below(key(order[j]), key(order[i]))
  }

  /** Every row once, in an order that follows the keys. */
  ghost predicate Lists<T(!new)>(order: seq<T>, rows: set<T>, key: T -> Key) {
    && (forall i, j | 0 <= i < j < |order| :: order[i] != order[j])
    && (forall x :: x in order <==> x in rows)
    && Sorted(order, key)
  }

  // ---- The screenings of a movie ----

  function ScreeningsOf(db: Tables, movie: Text): set<Screening> {
    set s | s in db.screenings && s.movie == movie
  }

  ghost predicate ScreeningList(db: Tables, movie: Text, rows: seq<Screening>) {
    Lists(rows, ScreeningsOf(db, movie), KeyOf)
  }

  // ---- The list of movies, in no particular order ----

  ghost predicate MovieList(db: Tables, rows: seq<Movie>) {
    Lists(rows, db.movies, (m: Movie) => Key(0, 0, 0, 0))
  }

  // ---- The tickets of a client ----

  /** A row of `reserva` or of `canceladas`; `tag` tells two cancellations of the same
      seat apart. */
  datatype Entry = Entry(tag: int, screening: int, seat: int)

  function Entries(db: Tables, client: Text, cancelled: bool): set<Entry> {
    if cancelled then set c | c in db.cancelled && c.client == client :: Entry(c.id, c.screening, c.seat)
    else set r | r in db.reservations && r.client == client :: Entry(0, r.screening, r.seat)
  }

  /** The row of `proyeccion` with this id; only used where there is one. */
  ghost function ScreeningWithId(db: Tables, id: int): (s: Screening)
    requires HasScreening(db, id)
    ensures s in db.screenings && s.id == id
  {
    var s :| s in db.screenings && s.id == id; s
  }

  /** The JOIN with `proyeccion`. */
  ghost function Joined(db: Tables, rows: set<Entry>): set<Entry> {
    set r | r in rows && HasScreening(db, r.screening)
  }

  ghost function EntryKey(db: Tables): Entry -> Key {
    (r: Entry) => if HasScreening(db, r.screening) then KeyOf(ScreeningWithId(db, r.screening)) else Key(0, 0, 0, 0)
  }

  ghost predicate TicketOf(db: Tables, t: Ticket, r: Entry) {
    t.seat == r.seat && t.screening in db.screenings && t.screening.id == r.screening
  }

  ghost predicate TicketList(db: Tables, client: Text, cancelled: bool, rows: seq<Ticket>) {
    exists order: seq<Entry> ::
      && Lists(order, Joined(db, Entries(db, client, cancelled)), EntryKey(db))
      && |rows| == |order|
      && forall i | 0 <= i < |rows| :: TicketOf(db, rows[i], order[i])
  }

  // ---- The seats of a hall ----

  const MAX_SEATS := 300

  ghost predicate SeatMap(db: Tables, id: int, seats: seq<Char>) {
    && |seats| == MAX_SEATS
    && forall i | 0 <= i < MAX_SEATS :: seats[i] == if SeatTaken(db, id, i) then 1 else 0
  }

  // ---- Every query has an answer ----

  lemma {:induction false} ListExists<T(!new)>(rows: set<T>, key: T -> Key) returns (order: seq<T>)
    ensures Lists(order, rows, key)
    decreases |rows|
  {
    if rows == {} {
      order := [];
    } else {
      var x :| x in rows;
      var rest := ListExists(rows - {x}, key);
      order := Place(rest, x, key);
    }
  }

  /** Inserting one more row where its key allows. */
  lemma {:induction false} Place<T(!new)>(order: seq<T>, x: T, key: T -> Key) returns (r: seq<T>)
    requires Sorted(order, key) && x !in order
    requires forall i, j | 0 <= i < j < |order| :: order[i] != order[j]
    ensures Sorted(r, key)
    ensures forall i, j | 0 <= i < j < |r| :: r[i] != r[j]
    ensures forall y :: y in r <==> y in order || y == x
  {
    if order == [] || !Below(key(order[0]), key(x)) {
      r := [x] + order;
      assert forall y :: y in order ==> !Below(key(y), key(x));
    } else {
      var front := order[0];
      var tail := order[1..];
      var rest := Place(tail, x, key);
      r := [front] + rest;
      assert order == [front] + tail;
      forall y | y in rest ensures y != front && !Below(key(y), key(front)) {
        if y != x {
          assert y in tail;
        }
      }
      forall i, j | 0 <= i < j < |r| ensures r[i] != r[j] && !Below(key(r[j]), key(r[i])) {
        assert r[j] == rest[j - 1] && r[j] in rest;
      }
    }
  }

  /** Every client's ticket query has an answer. */
  lemma TicketListExists(db: Tables, client: Text, cancelled: bool) returns (rows: seq<Ticket>)
    ensures TicketList(db, client, cancelled, rows)
  {
    var joined := Joined(db, Entries(db, client, cancelled));
    var order := ListExists(joined, EntryKey(db));
    assert forall i | 0 <= i < |order| :: order[i] in joined;
    rows := seq(|order|, i requires 0 <= i < |order| => Ticket(order[i].seat, ScreeningWithId(db, order[i].screening)));
  }

  // ---- The screening list is unique ----

  /** Two screenings of a consistent database never share a key. */
  lemma KeysDiffer(db: Tables, s: Screening, t: Screening)
    requires Consistent(db) && s in db.screenings && t in db.screenings && s != t
    ensures Below(KeyOf(s), KeyOf(t)) || Below(KeyOf(t), KeyOf(s))
  {}

  ghost predicate StrictlyIncreasing(rows: seq<Screening>) {
    forall i, j | 0 <= i < j < |rows| :: Below(KeyOf(rows[i]), KeyOf(rows[j]))
  }

  lemma ListIncreases(db: Tables, movie: Text, rows: seq<Screening>)
    requires Consistent(db)
    ensures ScreeningList(db, movie, rows)
      <==> StrictlyIncreasing(rows) && forall s :: s in rows <==> s in db.screenings && s.movie == movie
  {
    if ScreeningList(db, movie, rows) {
      forall i, j | 0 <= i < j < |rows| ensures Below(KeyOf(rows[i]), KeyOf(rows[j])) {
        assert rows[i] in rows && rows[j] in rows;
        KeysDiffer(db, rows[i], rows[j]);
      }
    }
  }

  /** The list of screenings increases strictly by month, then day, then slot, then hall,
      and enumerates exactly the screenings of the movie. */
  lemma ScreeningListIncreases(db: Tables, movie: Text, rows: seq<Screening>)
    requires Consistent(db)
    ensures ScreeningList(db, movie, rows) <==>
      && (forall s :: s in rows <==> s in db.screenings && s.movie == movie)
      && forall i, j | 0 <= i < j < |rows| :: var s, t := rows[i], rows[j];
        && s.month <= t.month
        && (s.month == t.month ==> s.day <= t.day)
        && (s.month == t.month && s.day == t.day ==> s.slot <= t.slot)
        && (s.month == t.month && s.day == t.day && s.slot == t.slot ==> s.hall < t.hall)
  {
    hide ScreeningList;
    ListIncreases(db, movie, rows);
  }

  lemma TailMembers(a: seq<Screening>)
    requires StrictlyIncreasing(a) && a != []
    ensures forall s :: s in a[1..] <==> s in a && s != a[0]
  {}

  lemma {:induction false} IncreasingUnique(a: seq<Screening>, b: seq<Screening>)
    requires StrictlyIncreasing(a) && StrictlyIncreasing(b)
    requires forall s :: s in a <==> s in b
    ensures a == b
  {
    assert b == [] || b[0] in b;
    if a == [] {
    } else {
      assert a[0] in b && b != [] && b[0] in a;
      assert a[0] == b[0];
      TailMembers(a);
      TailMembers(b);
      IncreasingUnique(a[1..], b[1..]);
    }
  }

  /** No two different lists answer the same screening query. */
  lemma ScreeningListUnique(db: Tables, movie: Text, a: seq<Screening>, b: seq<Screening>)
    requires Consistent(db) && ScreeningList(db, movie, a) && ScreeningList(db, movie, b)
    ensures a == b
  {
    ListIncreases(db, movie, a);
    ListIncreases(db, movie, b);
    IncreasingUnique(a, b);
  }

  /** In a consistent database the JOIN drops no row. */
  lemma JoinDropsNothing(db: Tables, client: Text, cancelled: bool)
    requires Consistent(db)
    ensures Joined(db, Entries(db, client, cancelled)) == Entries(db, client, cancelled)
  {}

  // ---- The ticket lists, in terms of the tables ----

  lemma SortedColumns(rows: seq<Ticket>, order: seq<Entry>, key: Entry -> Key)
    requires |rows| == |order| && forall i | 0 <= i < |rows| :: key(order[i]) == KeyOf(rows[i].screening)
    ensures Sorted(order, key) <==>
      forall i, j | 0 <= i < j < |rows| :: var s, t := rows[i].screening, rows[j].screening;
        && s.month <= t.month
        && (s.month == t.month ==> s.day <= t.day)
        && (s.month == t.month && s.day == t.day ==> s.slot <= t.slot)
        && (s.month == t.month && s.day == t.day && s.slot == t.slot ==> s.hall <= t.hall)
  {}

  /** Sorting the rows by their keys is sorting the tickets by their screenings' columns. */
  lemma TicketsSorted(db: Tables, rows: seq<Ticket>, order: seq<Entry>)
    requires Consistent(db) && |rows| == |order| && forall i | 0 <= i < |rows| :: TicketOf(db, rows[i], order[i])
    ensures Sorted(order, EntryKey(db)) <==>
      forall i, j | 0 <= i < j < |rows| :: var s, t := rows[i].screening, rows[j].screening;
        && s.month <= t.month
        && (s.month == t.month ==> s.day <= t.day)
        && (s.month == t.month && s.day == t.day ==> s.slot <= t.slot)
        && (s.month == t.month && s.day == t.day && s.slot == t.slot ==> s.hall <= t.hall)
  {
    forall i | 0 <= i < |rows| ensures EntryKey(db)(order[i]) == KeyOf(rows[i].screening) {}
    SortedColumns(rows, order, EntryKey(db));
  }

  function EntriesOf(rows: seq<Ticket>): (order: seq<Entry>)
    ensures |order| == |rows|
    ensures forall i | 0 <= i < |rows| :: order[i] == Entry(0, rows[i].screening.id, rows[i].seat)
  {
    seq(|rows|, i requires 0 <= i < |rows| => Entry(0, rows[i].screening.id, rows[i].seat))
  }

  /** A list of active tickets is the list of its entries. */
  lemma ReservationEntries(db: Tables, client: Text, rows: seq<Ticket>)
    requires Consistent(db)
    ensures TicketList(db, client, false, rows) <==>
      && Lists(EntriesOf(rows), Entries(db, client, false), EntryKey(db))
      && forall i | 0 <= i < |rows| :: TicketOf(db, rows[i], EntriesOf(rows)[i])
  {
    hide Consistent, EntryKey, Sorted;
    JoinDropsNothing(db, client, false);
    if TicketList(db, client, false, rows) {
      var order: seq<Entry> :| Lists(order, Joined(db, Entries(db, client, false)), EntryKey(db)) && |rows| == |order|
        && forall i | 0 <= i < |rows| :: TicketOf(db, rows[i], order[i]);
      forall i | 0 <= i < |rows| ensures order[i] == EntriesOf(rows)[i] {
        assert order[i] in order && TicketOf(db, rows[i], order[i]);
      }
      assert order == EntriesOf(rows);
    }
  }

  lemma ReservationMembers(db: Tables, client: Text, rows: seq<Ticket>)
    requires Consistent(db) && forall i | 0 <= i < |rows| :: TicketOf(db, rows[i], EntriesOf(rows)[i])
    ensures (forall e :: e in EntriesOf(rows) <==> e in Entries(db, client, false)) <==>
      forall t: Ticket ::
        t in rows <==> t.screening in db.screenings && Reservation(client, t.screening.id, t.seat) in db.reservations
    ensures (forall i, j | 0 <= i < j < |rows| :: EntriesOf(rows)[i] != EntriesOf(rows)[j])
      <==> forall i, j | 0 <= i < j < |rows| :: rows[i] != rows[j]
  {
    var order := EntriesOf(rows);
    forall t: Ticket | t.screening in db.screenings
      ensures t in rows <==> Entry(0, t.screening.id, t.seat) in order
    {
      if i :| 0 <= i < |rows| && order[i] == Entry(0, t.screening.id, t.seat) {
        assert TicketOf(db, rows[i], order[i]) && rows[i] == t;
      }
      if i :| 0 <= i < |rows| && rows[i] == t {
        assert order[i] in order;
      }
    }
    forall t: Ticket | t in rows ensures t.screening in db.screenings {
      var i :| 0 <= i < |rows| && rows[i] == t;
      assert TicketOf(db, rows[i], order[i]);
    }
    forall client', id, seat | Reservation(client', id, seat) in db.reservations ensures HasScreening(db, id) {}
    if forall t: Ticket ::
        t in rows <==> t.screening in db.screenings && Reservation(client, t.screening.id, t.seat) in db.reservations {
      forall e | e in Entries(db, client, false) ensures e in order {
        var t := Ticket(e.seat, ScreeningWithId(db, e.screening));
        assert t in rows;
      }
      forall e | e in order ensures e in Entries(db, client, false) {
        var i :| 0 <= i < |rows| && order[i] == e;
        assert rows[i] in rows;
      }
    }
    if forall e :: e in order <==> e in Entries(db, client, false) {
      forall t: Ticket | t.screening in db.screenings
        ensures Entry(0, t.screening.id, t.seat) in Entries(db, client, false)
          <==> Reservation(client, t.screening.id, t.seat) in db.reservations
      {}
    }
    forall i, j | 0 <= i < j < |rows| ensures order[i] == order[j] <==> rows[i] == rows[j] {
      assert TicketOf(db, rows[i], order[i]) && TicketOf(db, rows[j], order[j]);
    }
  }

  /** The lists of active tickets of a client are exactly those with each reservation once,
      by month, then day, then slot, then hall of the screening. */
  lemma ReservationListExact(db: Tables, client: Text, rows: seq<Ticket>)
    requires Consistent(db)
    ensures TicketList(db, client, false, rows) <==>
      && (forall t: Ticket ::
            t in rows <==>
              t.screening in db.screenings && Reservation(client, t.screening.id, t.seat) in db.reservations)
      && (forall i, j | 0 <= i < j < |rows| :: rows[i] != rows[j])
      && forall i, j | 0 <= i < j < |rows| :: var s, t := rows[i].screening, rows[j].screening;
        && s.month <= t.month
        && (s.month == t.month ==> s.day <= t.day)
        && (s.month == t.month && s.day == t.day ==> s.slot <= t.slot)
        && (s.month == t.month && s.day == t.day && s.slot == t.slot ==> s.hall <= t.hall)
  {
    hide Consistent, Sorted, EntryKey, Entries, TicketList;
    ReservationEntries(db, client, rows);
    if forall i | 0 <= i < |rows| :: TicketOf(db, rows[i], EntriesOf(rows)[i]) {
      TicketsSorted(db, rows, EntriesOf(rows));
      ReservationMembers(db, client, rows);
    } else {
      var i :| 0 <= i < |rows| && !TicketOf(db, rows[i], EntriesOf(rows)[i]);
      assert rows[i] in rows && rows[i].screening !in db.screenings;
    }
  }

  lemma {:induction false} SameSize<T(!new)>(order: seq<T>, rows: set<T>)
    requires forall i, j | 0 <= i < j < |order| :: order[i] != order[j]
    requires forall x :: x in order <==> x in rows
    ensures |order| == |rows|
  {
    if order == [] {
      assert rows == {};
    } else {
      var front, x := order[..|order| - 1], order[|order| - 1];
      assert order == front + [x];
      SameSize(front, rows - {x});
    }
  }

  lemma {:induction false} EntriesOfCancellations(cs: set<Cancellation>)
    requires forall c, d | c in cs && d in cs && c.id == d.id :: c == d
    ensures |set c | c in cs :: Entry(c.id, c.screening, c.seat)| == |cs|
    decreases |cs|
  {
    var all := set c | c in cs :: Entry(c.id, c.screening, c.seat);
    if cs == {} {
      assert all == {};
    } else {
      var x :| x in cs;
      var rest := set c | c in cs - {x} :: Entry(c.id, c.screening, c.seat);
      EntriesOfCancellations(cs - {x});
      assert all == rest + {Entry(x.id, x.screening, x.seat)};
      assert Entry(x.id, x.screening, x.seat) !in rest;
    }
  }

  /** The cancellations of `cs` behind a ticket. */
  ghost function Behind(cs: set<Cancellation>, t: Ticket): set<Cancellation> {
    set c | c in cs && c.screening == t.screening.id && c.seat == t.seat
  }

  ghost function CancellationsOf(db: Tables, client: Text): set<Cancellation> {
    set c | c in db.cancelled && c.client == client
  }

  ghost function AsEntries(cs: set<Cancellation>): set<Entry> {
    set c | c in cs :: Entry(c.id, c.screening, c.seat)
  }

  /** The row of a ticket is a row of `t` exactly when it is the ticket `t`. */
  lemma RowOfTicket(db: Tables, r: Ticket, e: Entry, t: Ticket)
    requires ScreeningsOk(db) && t.screening in db.screenings && TicketOf(db, r, e)
    ensures r == t <==> e.screening == t.screening.id && e.seat == t.seat
  {}

  /** The entries of `order` that are rows of `t`. */
  ghost function EntriesBehind(order: seq<Entry>, t: Ticket): set<Entry> {
    set e | e in order && e.screening == t.screening.id && e.seat == t.seat
  }

  lemma OneMoreBehind(front: seq<Entry>, last: Entry, t: Ticket)
    requires last !in front
    ensures |EntriesBehind(front + [last], t)|
      == |EntriesBehind(front, t)| + (if last.screening == t.screening.id && last.seat == t.seat then 1 else 0)
  {
    var one := if last.screening == t.screening.id && last.seat == t.seat then {last} else {};
    assert EntriesBehind(front + [last], t) == EntriesBehind(front, t) + one;
  }

  lemma {:induction false} Occurrences(rows: seq<Ticket>, order: seq<Entry>, t: Ticket)
    requires |rows| == |order| && forall i, j | 0 <= i < j < |order| :: order[i] != order[j]
    requires forall i | 0 <= i < |rows| ::
      rows[i] == t <==> order[i].screening == t.screening.id && order[i].seat == t.seat
    ensures multiset(rows)[t] == |EntriesBehind(order, t)|
  {
    if rows == [] {
      assert EntriesBehind(order, t) == {};
    } else {
      hide EntriesBehind;
      var n := |rows| - 1;
      Occurrences(rows[..n], order[..n], t);
      assert rows == rows[..n] + [rows[n]] && order == order[..n] + [order[n]];
      OneMoreBehind(order[..n], order[n], t);
    }
  }

  /** Each ticket occurs as often as there are cancellations behind it. */
  ghost predicate Matched(db: Tables, rows: seq<Ticket>, cs: set<Cancellation>) {
    forall t: Ticket :: multiset(rows)[t] == if t.screening in db.screenings then |Behind(cs, t)| else 0
  }

  lemma MatchedFront(db: Tables, front: seq<Ticket>, r: Ticket, cs: set<Cancellation>, c: Cancellation)
    requires ScreeningsOk(db) && r.screening in db.screenings && c in Behind(cs, r) && Matched(db, front + [r], cs)
    ensures Matched(db, front, cs - {c})
  {
    forall t: Ticket
      ensures multiset(front)[t] == if t.screening in db.screenings then |Behind(cs - {c}, t)| else 0
    {
      assert multiset(front + [r])[t] == multiset(front)[t] + (if t == r then 1 else 0);
      assert Behind(cs - {c}, t) == Behind(cs, t) - {c};
      if t.screening in db.screenings {
        RowOfTicket(db, r, Entry(c.id, c.screening, c.seat), t);
      }
    }
  }

  lemma HasTicket(db: Tables, rows: seq<Ticket>, cs: set<Cancellation>, c: Cancellation)
    requires Matched(db, rows, cs) && c in cs && HasScreening(db, c.screening)
    ensures rows != []
  {
    var t := Ticket(c.seat, ScreeningWithId(db, c.screening));
    assert c in Behind(cs, t);
    assert multiset(rows)[t] > 0;
  }

  lemma EntriesWithout(cs: set<Cancellation>, c: Cancellation)
    requires c in cs && forall d, e | d in cs && e in cs && d.id == e.id :: d == e
    ensures var entry := Entry(c.id, c.screening, c.seat);
      AsEntries(cs) == AsEntries(cs - {c}) + {entry} && entry !in AsEntries(cs - {c})
  {}

  /** Giving each ticket a cancellation of its own. */
  lemma {:induction false} Assign(db: Tables, rows: seq<Ticket>, cs: set<Cancellation>) returns (order: seq<Entry>)
    requires ScreeningsOk(db) && forall c | c in cs :: HasScreening(db, c.screening)
    requires (forall c, d | c in cs && d in cs && c.id == d.id :: c == d) && Matched(db, rows, cs)
    ensures |order| == |rows| && forall i | 0 <= i < |rows| :: TicketOf(db, rows[i], order[i])
    ensures forall i, j | 0 <= i < j < |order| :: order[i] != order[j]
    ensures forall e :: e in order <==> e in AsEntries(cs)
  {
    hide ScreeningsOk, HasScreening;
    if c :| c in cs {
      HasTicket(db, rows, cs, c);
    }
    if rows == [] {
      order := [];
    } else {
      var n := |rows| - 1;
      var front, r := rows[..n], rows[n];
      assert rows == front + [r] && multiset(rows)[r] > 0;
      assert Behind(cs, r) != {};
      var c :| c in Behind(cs, r);
      MatchedFront(db, front, r, cs, c);
      assert TicketOf(db, r, Entry(c.id, c.screening, c.seat));
      hide Matched, Behind, AsEntries, TicketOf;
      EntriesWithout(cs, c);
      var rest := Assign(db, front, cs - {c});
      order := rest + [Entry(c.id, c.screening, c.seat)];
    }
  }

  lemma ClientCancellations(db: Tables, client: Text)
    requires Consistent(db)
    ensures Joined(db, Entries(db, client, true)) == AsEntries(CancellationsOf(db, client))
  {
    JoinDropsNothing(db, client, true);
    assert Entries(db, client, true) == AsEntries(CancellationsOf(db, client));
  }

  lemma CancelledOccurrences(db: Tables, client: Text, rows: seq<Ticket>, order: seq<Entry>)
    requires Consistent(db) && |rows| == |order| && forall i | 0 <= i < |rows| :: TicketOf(db, rows[i], order[i])
    requires forall i, j | 0 <= i < j < |order| :: order[i] != order[j]
    requires forall e :: e in order <==> e in AsEntries(CancellationsOf(db, client))
    ensures Matched(db, rows, CancellationsOf(db, client))
  {
    forall t: Ticket ensures multiset(rows)[t]
      == if t.screening in db.screenings then |Behind(CancellationsOf(db, client), t)| else 0
    {
      if t.screening in db.screenings {
        var cs := Behind(CancellationsOf(db, client), t);
        forall i | 0 <= i < |rows|
          ensures rows[i] == t <==> order[i].screening == t.screening.id && order[i].seat == t.seat
        {
          RowOfTicket(db, rows[i], order[i], t);
        }
        Occurrences(rows, order, t);
        EntriesOfCancellations(cs);
        assert EntriesBehind(order, t) == set c | c in cs :: Entry(c.id, c.screening, c.seat);
      } else {
        assert forall i | 0 <= i < |rows| :: TicketOf(db, rows[i], order[i]) && rows[i] != t;
      }
    }
  }

  /** The lists of cancelled tickets of a client are exactly those with each ticket as often
      as it was cancelled, by month, then day, then slot, then hall of the screening. */
  lemma CancelledListExact(db: Tables, client: Text, rows: seq<Ticket>)
    requires Consistent(db)
    ensures TicketList(db, client, true, rows) <==>
      && (forall t: Ticket :: multiset(rows)[t] ==
            if t.screening !in db.screenings then 0
            else |set c | c in db.cancelled && c.client == client && c.screening == t.screening.id && c.seat == t.seat|)
      && forall i, j | 0 <= i < j < |rows| :: var s, t := rows[i].screening, rows[j].screening;
        && s.month <= t.month
        && (s.month == t.month ==> s.day <= t.day)
        && (s.month == t.month && s.day == t.day ==> s.slot <= t.slot)
        && (s.month == t.month && s.day == t.day && s.slot == t.slot ==> s.hall <= t.hall)
  {
    hide Sorted, EntryKey, Entries, Joined, AsEntries;
    var cs := CancellationsOf(db, client);
    ClientCancellations(db, client);
    forall t: Ticket ensures Behind(cs, t)
      == set c | c in db.cancelled && c.client == client && c.screening == t.screening.id && c.seat == t.seat {}
    if TicketList(db, client, true, rows) {
      var order: seq<Entry> :| Lists(order, Joined(db, Entries(db, client, true)), EntryKey(db)) && |rows| == |order|
        && forall i | 0 <= i < |rows| :: TicketOf(db, rows[i], order[i]);
      TicketsSorted(db, rows, order);
      CancelledOccurrences(db, client, rows, order);
    }
    if Matched(db, rows, cs) {
      var order := Assign(db, rows, cs);
      TicketsSorted(db, rows, order);
    }
  }

  /** There is one row per cancellation of the client. */
  lemma CancelledListLength(db: Tables, client: Text, rows: seq<Ticket>)
    requires Consistent(db) && TicketList(db, client, true, rows)
    ensures |rows| == |set c | c in db.cancelled && c.client == client|
  {
    hide Consistent, Sorted, EntryKey, Entries;
    ClientCancellations(db, client);
    var order: seq<Entry> :| Lists(order, Joined(db, Entries(db, client, true)), EntryKey(db)) && |rows| == |order|
      && forall i | 0 <= i < |rows| :: TicketOf(db, rows[i], order[i]);
    SameSize(order, AsEntries(CancellationsOf(db, client)));
    CancellationEntries(db, client);
  }

  lemma CancellationEntries(db: Tables, client: Text)
    requires Consistent(db)
    ensures |AsEntries(CancellationsOf(db, client))| == |set c | c in db.cancelled && c.client == client|
  {
    EntriesOfCancellations(CancellationsOf(db, client));
  }

  /** The movie lists are exactly those with each film once. */
  lemma MovieListExact(db: Tables, rows: seq<Movie>)
    ensures MovieList(db, rows) <==>
      && (forall m :: m in rows <==> m in db.movies)
      && forall i, j | 0 <= i < j < |rows| :: rows[i] != rows[j]
  {}
}
