/** The items of a list transfer: how a row becomes a packet and a packet becomes an
    element of the client's list. */
module Items {
  import opened CStrings
  import opened Database
  import opened Queries
  import opened Service
  import opened Packets

  datatype Item =
    | ScreeningItem(id: Text, day: Char, month: Char, slot: Char, hall: Char)
    | MovieItem(name: Text, description: Text)
    | TicketItem(seat: int, id: Text, movie: Text, day: Char, month: Char, slot: Char, hall: Char)

  datatype Kind = OfScreening | OfMovie | OfTicket

  function KindOf(item: Item): Kind {
    match item
    case ScreeningItem(_, _, _, _, _) => OfScreening
    case MovieItem(_, _) => OfMovie
    case TicketItem(_, _, _, _, _, _, _) => OfTicket
  }

  /** The texts fit the fields on both sides, the seat fits its byte. */
  predicate ItemFits(item: Item) {
    match item
    case ScreeningItem(id, _, _, _, _) => IsText(id, CLIENT_ID_LEN - 1)
    case MovieItem(name, description) => IsText(name, MOVIE_NAME_LEN) && IsText(description, DESCRIPTION_LEN)
    case TicketItem(seat, id, movie, _, _, _, _) =>
      IsText(id, CLIENT_ID_LEN - 1) && IsText(movie, MOVIE_NAME_LEN) && -128 <= seat < 128
  }

  /** The item packet the server builds in its buffer, over what it last received. */
  function EncodeItem(stale: Packet, item: Item): Packet
    requires ItemFits(item)
  {
    match item
    case ScreeningItem(id, day, month, slot, hall) =>
      Put(stale[0 := TRANSACTION_ITEM][1 := day][2 := month][3 := slot][4 := hall], 5, id)
    case MovieItem(name, description) =>
      Put(Put(stale[0 := TRANSACTION_ITEM], 1, name), 1 + |name| + 1, description)
    case TicketItem(seat, id, movie, day, month, slot, hall) =>
      var p := stale[0 := TRANSACTION_ITEM][1 := ToChar(seat)][2 := day][3 := month][4 := slot][5 := hall];
      Put(Put(p, 6, id), 6 + |id| + 1, movie)
  }

  /** The position after the string at `at`, at most the end of the buffer: what lies
      beyond the client's buffer is not part of the model. */
  function NextField(p: Packet, at: nat): nat
    requires at <= PACKET_LENGTH
  {
    if End(p, at) < PACKET_LENGTH then End(p, at) + 1 else PACKET_LENGTH
  }

  /** What the client reads from an item packet. */
  function DecodeItem(kind: Kind, p: Packet): Item {
    match kind
    case OfScreening => ScreeningItem(StringAt(p, 5), p[1], p[2], p[3], p[4])
    case OfMovie =>
      MovieItem(Truncated(StringAt(p, 1), MOVIE_NAME_LEN), Truncated(StringAt(p, NextField(p, 1)), DESCRIPTION_LEN))
    case OfTicket => TicketItem(p[1], StringAt(p, 6), StringAt(p, NextField(p, 6)), p[2], p[3], p[4], p[5])
  }

  lemma ScreeningItemRoundTrip(stale: Packet, item: Item)
    requires ItemFits(item) && item.ScreeningItem?
    ensures DecodeItem(KindOf(item), EncodeItem(stale, item)) == item
    ensures EncodeItem(stale, item)[0] == TRANSACTION_ITEM
  {
    hide Put, End, StringAt;
    var q := EncodeItem(stale, item);
    ReadBack(q, 5, item.id);
  }

  lemma MovieItemRoundTrip(stale: Packet, item: Item)
    requires ItemFits(item) && item.MovieItem?
    ensures DecodeItem(KindOf(item), EncodeItem(stale, item)) == item
    ensures EncodeItem(stale, item)[0] == TRANSACTION_ITEM
  {
    hide Put, End, StringAt;
    var q := EncodeItem(stale, item);
    PutTwice(stale[0 := TRANSACTION_ITEM], 1, item.name, item.description);
    ReadBack(q, 1, item.name);
    ReadBack(q, 1 + |item.name| + 1, item.description);
  }

  lemma TicketItemRoundTrip(stale: Packet, item: Item)
    requires ItemFits(item) && item.TicketItem?
    ensures DecodeItem(KindOf(item), EncodeItem(stale, item)) == item
    ensures EncodeItem(stale, item)[0] == TRANSACTION_ITEM
  {
    hide Put, End, StringAt;
    var q := EncodeItem(stale, item);
    var p := stale[0 := TRANSACTION_ITEM][1 := ToChar(item.seat)];
    p := p[2 := item.day][3 := item.month][4 := item.slot][5 := item.hall];
    PutTwice(p, 6, item.id, item.movie);
    ReadBack(q, 6, item.id);
    ReadBack(q, 6 + |item.id| + 1, item.movie);
  }

  /** The client reads the item the server wrote, whatever the server's buffer held. */
  lemma ItemRoundTrip(stale: Packet, item: Item)
    requires ItemFits(item)
    ensures DecodeItem(KindOf(item), EncodeItem(stale, item)) == item
    ensures EncodeItem(stale, item)[0] == TRANSACTION_ITEM
  {
    hide EncodeItem, DecodeItem, ItemFits;
    match item
    case ScreeningItem(_, _, _, _, _) => ScreeningItemRoundTrip(stale, item);
    case MovieItem(_, _) => MovieItemRoundTrip(stale, item);
    case TicketItem(_, _, _, _, _, _, _) => TicketItemRoundTrip(stale, item);
  }

  // ---- Rows as items ----

  function ScreeningRowItem(s: Screening): Item {
    ScreeningItem(Decimal(s.id), ToChar(s.day), ToChar(s.month), ToChar(s.slot), ToChar(s.hall))
  }

  function MovieRowItem(m: Movie): Item {
    MovieItem(m.name, m.description)
  }

  function TicketRowItem(t: Ticket): Item {
    var s := t.screening;
    TicketItem(t.seat, Decimal(s.id), s.movie, ToChar(s.day), ToChar(s.month), ToChar(s.slot), ToChar(s.hall))
  }

  function ScreeningItems(rows: seq<Screening>): (items: seq<Item>)
    ensures |items| == |rows| && forall i | 0 <= i < |rows| :: items[i] == ScreeningRowItem(rows[i])
  {
    seq(|rows|, i requires 0 <= i < |rows| => ScreeningRowItem(rows[i]))
  }

  function MovieItems(rows: seq<Movie>): (items: seq<Item>)
    ensures |items| == |rows| && forall i | 0 <= i < |rows| :: items[i] == MovieRowItem(rows[i])
  {
    seq(|rows|, i requires 0 <= i < |rows| => MovieRowItem(rows[i]))
  }

  function TicketItems(rows: seq<Ticket>): (items: seq<Item>)
    ensures |items| == |rows| && forall i | 0 <= i < |rows| :: items[i] == TicketRowItem(rows[i])
  {
    seq(|rows|, i requires 0 <= i < |rows| => TicketRowItem(rows[i]))
  }

  // ---- Stored rows always fit ----

  /** Every stored text is within its field and every stored number within its byte. */
  ghost predicate RowsFit(db: Tables) {
    && (forall m | m in db.movies :: IsText(m.name, MOVIE_NAME_LEN) && IsText(m.description, DESCRIPTION_LEN))
    && (forall s | s in db.screenings :: IsText(s.movie, MOVIE_NAME_LEN) && s.slot < 128 && s.hall < 128)
    && (forall r | r in db.reservations :: -128 <= r.seat < 128)
    && (forall c | c in db.cancelled :: -128 <= c.seat < 128)
  }

  lemma EmptyFits()
    ensures RowsFit(EMPTY)
  {}

  /** Handling a request the decoder can produce keeps the stored rows within bounds. */
  lemma RowsKeepFitting(db: Tables, req: Request)
    requires RowsFit(db) && RequestFits(req)
    ensures RowsFit(Service.After(db, req))
  {}

  lemma IdFits(id: int)
    requires 1 <= id <= MAX_ROWID
    ensures IsText(Decimal(id), ID_LEN - 1)
  {
    assert Pow10(19) == 10_000_000_000_000_000_000 by {
      assert Pow10(4) == 10_000;
      assert Pow10(8) == 10_000 * Pow10(4) by { PowStep(4); }
      assert Pow10(12) == 10_000 * Pow10(8) by { PowStep(8); }
      assert Pow10(16) == 10_000 * Pow10(12) by { PowStep(12); }
      assert Pow10(19) == 1000 * Pow10(16) by { assert Pow10(18) == 10 * Pow10(17) && Pow10(17) == 10 * Pow10(16); }
    }
    DigitsLength(id, 19);
  }

  lemma PowStep(k: nat)
    ensures Pow10(k + 4) == 10_000 * Pow10(k)
  {
    assert Pow10(k + 4) == 10 * Pow10(k + 3) && Pow10(k + 3) == 10 * Pow10(k + 2) && Pow10(k + 2) == 10 * Pow10(k + 1);
  }

  /** Every stored screening, movie and ticket makes an item that fits its packet. */
  lemma StoredRowsMakeItems(db: Tables, s: Screening)
    requires Consistent(db) && RowsFit(db) && s in db.screenings
    ensures ItemFits(ScreeningRowItem(s))
    ensures forall m | m in db.movies :: ItemFits(MovieRowItem(m))
    ensures forall seat | -128 <= seat < 128 :: ItemFits(TicketRowItem(Ticket(seat, s)))
    ensures ToChar(s.day) == s.day && ToChar(s.month) == s.month && ToChar(s.slot) == s.slot && ToChar(s.hall) == s.hall
  {
    IdFits(s.id);
  }
}
