/** The object that collects the rows of a query and hands them out one by one. */
module QueryData {
  import opened CStrings

  datatype Cell = Null | Value(text: Text)
  type Row = seq<Cell>

  const INITIAL_CAPACITY: nat := 10

  datatype NextRow = NoRow | SomeRow(row: Row)

  class QueryData {
    const cols: nat
    var rows: nat
    var cursor: nat
    var data: array<Row>
    var capacity: nat
    /** How many times the matrix was reallocated, and how many rows that moved in all. */
    ghost var doublings: nat
    ghost var copied: nat

    ghost predicate Valid()
      reads this, data
    {
      && data.Length == capacity
      && cursor <= rows < capacity
      && INITIAL_CAPACITY <= capacity
      && (capacity == INITIAL_CAPACITY || capacity <= 2 * rows)
      && copied + INITIAL_CAPACITY + doublings == capacity
      && (doublings == 0 <==> capacity == INITIAL_CAPACITY)
      && forall i | 0 <= i < rows :: |data[i]| == cols
    }

    /** The rows captured so far. */
    ghost function Captured(): (s: seq<Row>)
      requires Valid()
      reads this, data
      ensures |s| == rows
    {
      data[..rows]
    }

    constructor (cols: nat)
      ensures Valid() && fresh(data)
      ensures this.cols == cols && Captured() == [] && cursor == 0 && copied == 0
    {
      this.cols := cols;
      rows, cursor := 0, 0;
      data := new Row[INITIAL_CAPACITY](i => []);
      capacity := INITIAL_CAPACITY;
      doublings, copied := 0, 0;
    }

    /** `increase_capacity`: reallocation keeps the rows and moves each of them once. */
    method IncreaseCapacity()
      requires data.Length == capacity && rows <= capacity
      modifies this`data, this`capacity, this`doublings, this`copied
      ensures fresh(data) && data.Length == capacity == 2 * old(capacity)
      ensures data[..rows] == old(data[..rows])
      ensures doublings == old(doublings) + 1 && copied == old(copied) + rows
    {
      var grown := new Row[2 * capacity](i => []);
      forall i | 0 <= i < rows {
        grown[i] := data[i];
      }
      data := grown;
      capacity := 2 * capacity;
      doublings, copied := doublings + 1, copied + rows;
    }

    /** `callback`: called by the database once per row. */
    method Callback(elems: Row)
      requires Valid() && |elems| == cols
      modifies this, data
      ensures Valid() && (data == old(data) || fresh(data))
      ensures Captured() == old(Captured()) + [elems]
      ensures cursor == old(cursor)
    {
      if rows >= capacity - 1 {
        IncreaseCapacity();
      }
      var row := [];
      for i := 0 to |elems|
        invariant row == elems[..i]
      {
        match elems[i] {
          case Null => row := row + [Null];
          case Value(text) => row := row + [Value(text)];
        }
      }
      assert row == elems;
      data[rows] := row;
      rows := rows + 1;
      assert data[..rows] == data[..rows - 1] + [elems];
    }

    method GetNextRow() returns (res: NextRow)
      requires Valid()
      modifies this`cursor
      ensures Valid() && Captured() == old(Captured())
      ensures res == if old(cursor) < rows then SomeRow(Captured()[old(cursor)]) else NoRow
      ensures cursor == if old(cursor) < rows then old(cursor) + 1 else old(cursor)
    {
      if cursor >= rows {
        return NoRow;
      }
      var row := [];
      for i := 0 to cols
        invariant row == data[cursor][..i]
      {
        row := row + [data[cursor][i]];
      }
      assert row == data[cursor];
      res := SomeRow(row);
      cursor := cursor + 1;
    }

    /** The amortised cost of growing: fewer rows moved than twice the rows stored. */
    lemma FewRowsMoved()
      requires Valid()
      ensures copied == capacity - 10 - doublings
      ensures rows > 0 ==> copied < 2 * rows
      ensures capacity <= if rows <= 5 then 10 else 2 * rows
    {}
  }

  /** `do_query`: the database delivers its rows in order. */
  method DoQuery(q: QueryData, result: seq<Row>)
    requires q.Valid() && forall r | r in result :: |r| == q.cols
    modifies q, q.data
    ensures q.Valid() && (q.data == old(q.data) || fresh(q.data))
    ensures q.Captured() == old(q.Captured()) + result && q.cursor == old(q.cursor)
  {
    for i := 0 to |result|
      invariant q.Valid() && (q.data == old(q.data) || fresh(q.data))
      invariant q.Captured() == old(q.Captured()) + result[..i] && q.cursor == old(q.cursor)
    {
      q.Callback(result[i]);
    }
    assert result[..|result|] == result;
  }

  /** `new_query` and `do_query`. */
  method Query(cols: nat, result: seq<Row>) returns (q: QueryData)
    requires forall r | r in result :: |r| == cols
    ensures fresh(q) && q.Valid() && q.cols == cols && q.Captured() == result && q.cursor == 0
  {
    q := new QueryData(cols);
    DoQuery(q, result);
  }

  /** After any rows were captured, `next_row` gives exactly those, in order, and then
      nothing more. */
  method Drain(cols: nat, result: seq<Row>) returns (taken: seq<Row>)
    requires forall r | r in result :: |r| == cols
    ensures taken == result
  {
    var q := Query(cols, result);
    hide QueryData.Valid, QueryData.Captured;
    taken := [];
    var next := q.GetNextRow();
    while next.SomeRow?
      invariant q.Valid() && fresh(q) && q.Captured() == result
      invariant |taken| <= |result| && taken == result[..|taken|]
      invariant next == if |taken| < |result| then SomeRow(result[|taken|]) else NoRow
      invariant q.cursor == if |taken| < |result| then |taken| + 1 else |result|
      decreases |result| - |taken|
    {
      taken := taken + [next.row];
      next := q.GetNextRow();
    }
  }
}
