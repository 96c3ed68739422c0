/** The server's neighbour table for the 16 x 16 board: each 1-based cell
    (X, Y) maps to its left, right, upper and lower neighbour, clamped to the
    board so that a missing neighbour at an edge is the cell itself. The table
    is shared by every map object, so building it again rewrites the same
    entries. */
module ServerMap {

  /** A 1-based board cell (X, Y). */
  type Cell = (int, int)

  type Table = map<Cell, seq<Cell>>

  const Size: int := 16

  function Max(a: int, b: int): int { if a >= b then a else b }
  function Min(a: int, b: int): int { if a <= b then a else b }

  predicate OnBoard(c: Cell) {
    1 <= c.0 <= Size && 1 <= c.1 <= Size
  }

  /** The neighbours of (X, Y) in the order left, right, up, down, each clamped
      to the board. */
  function Neighbours(c: Cell): (ns: seq<Cell>)
    ensures |ns| == 4
  {
    var (x, y) := c;
    [(Max(x - 1, 1), y), (Min(x + 1, Size), y), (x, Max(y - 1, 1)), (x, Min(y + 1, Size))]
  }

  /** The cells of the board. */
  function BoardCells(): set<Cell> {
    set x, y | 1 <= x <= Size && 1 <= y <= Size :: (x, y)
  }

  /** The table after construction: every board cell maps to its neighbours
      and every other entry already in the table is kept. */
  function Built(table: Table): (t: Table)
    ensures t.Keys == table.Keys + BoardCells()
  {
    map c | c in table.Keys + BoardCells() :: if OnBoard(c) then Neighbours(c) else table[c]
  }

  /** The entry the constructor writes for the 0-based loop indices x, y, in
      the source's own arithmetic. */
  function Entry(x: int, y: int): (ns: seq<Cell>)
    ensures ns == Neighbours((x + 1, y + 1))
  {
    [(Max(x, 1), y + 1), (Min(x + 2, 16), y + 1), (x + 1, Max(y, 1)), (x + 1, Min(y + 2, 16))]
  }

  /** Cells already written once the loops reached 0-based column x, row y. */
  ghost predicate Written(c: Cell, x: int, y: int) {
    OnBoard(c) && (c.0 <= x || (c.0 == x + 1 && c.1 <= y))
  }

  /** `t` is `table` with the written cells set to their neighbours. */
  ghost predicate Partial(t: Table, table: Table, x: int, y: int) {
    && (forall c :: c in t <==> c in table || Written(c, x, y))
    && (forall c :: c in t && Written(c, x, y) ==> t[c] == Neighbours(c))
    && (forall c :: c in t && !Written(c, x, y) ==> t[c] == table[c])
  }

  /** Writing cell (x + 1, y + 1) advances the loop by one row. */
  lemma WriteCell(t: Table, table: Table, x: int, y: int)
    requires 0 <= x < Size && 0 <= y < Size && Partial(t, table, x, y)
    ensures Partial(t[(x + 1, y + 1) := Neighbours((x + 1, y + 1))], table, x, y + 1)
  {
    var c0 := (x + 1, y + 1);
    var t' := t[c0 := Neighbours(c0)];
    forall c ensures c in t' <==> c in table || Written(c, x, y + 1) {
      assert Written(c, x, y + 1) <==> Written(c, x, y) || c == c0;
    }
    forall c | c in t' && Written(c, x, y + 1) ensures t'[c] == Neighbours(c) {
      if c != c0 {
        assert Written(c, x, y);
      }
    }
    forall c | c in t' && !Written(c, x, y + 1) ensures t'[c] == table[c] {
      assert c != c0 && !Written(c, x, y);
    }
  }

  lemma NextColumn(t: Table, table: Table, x: int)
    requires Partial(t, table, x, Size)
    ensures Partial(t, table, x + 1, 0)
  {
    assert forall c :: Written(c, x, Size) <==> Written(c, x + 1, 0);
  }

  lemma AllWritten(t: Table, table: Table)
    requires Partial(t, table, Size, 0)
    ensures t == Built(table)
  {
    assert forall c :: Written(c, Size, 0) <==> OnBoard(c);
    assert forall c :: OnBoard(c) <==> c in BoardCells() by {
      forall c | OnBoard(c) ensures c in BoardCells() {
        var (x, y) := c;
        assert (x, y) in BoardCells();
      }
    }
    assert t.Keys == Built(table).Keys;
  }

  /** The constructor's two nested loops over the 0-based x and y. */
  method Build(table: Table) returns (t: Table)
    ensures t == Built(table)
  {
    t := table;
    var x := 0;
    while x < Size
      invariant 0 <= x <= Size
      invariant Partial(t, table, x, 0)
    {
      t := FillColumn(t, table, x);
      NextColumn(t, table, x);
      x := x + 1;
    }
    AllWritten(t, table);
  }

  /** The inner loop: column x + 1, rows 1 to 16. */
  method FillColumn(t0: Table, ghost table: Table, x: int) returns (t: Table)
    requires 0 <= x < Size && Partial(t0, table, x, 0)
    ensures Partial(t, table, x, Size)
  {
    t := t0;
    var y := 0;
    while y < Size
      invariant 0 <= y <= Size
      invariant Partial(t, table, x, y)
    {
      WriteCell(t, table, x, y);
      t := t[(x + 1, y + 1) := Entry(x, y)];
      y := y + 1;
    }
  }

  /** Every neighbour is on the board, and a neighbour either differs from the
      cell by one in exactly the named direction or, at the edge it would
      cross, is the cell itself. */
  lemma NeighboursClamped(c: Cell)
    requires OnBoard(c)
    ensures forall i :: 0 <= i < 4 ==> OnBoard(Neighbours(c)[i])
    ensures Neighbours(c)[0] == (if c.0 == 1 then c else (c.0 - 1, c.1))
    ensures Neighbours(c)[1] == (if c.0 == Size then c else (c.0 + 1, c.1))
    ensures Neighbours(c)[2] == (if c.1 == 1 then c else (c.0, c.1 - 1))
    ensures Neighbours(c)[3] == (if c.1 == Size then c else (c.0, c.1 + 1))
  {
  }

  /** Neighbourhood is symmetric away from the edges: the right neighbour's
      left neighbour, and the lower neighbour's upper neighbour, is the cell. */
  lemma NeighboursSymmetric(c: Cell)
    requires OnBoard(c)
    ensures c.0 < Size ==> Neighbours(Neighbours(c)[1])[0] == c
    ensures c.1 < Size ==> Neighbours(Neighbours(c)[3])[2] == c
    ensures c.0 > 1 ==> Neighbours(Neighbours(c)[0])[1] == c
    ensures c.1 > 1 ==> Neighbours(Neighbours(c)[2])[3] == c
  {
  }

  /** Building the table a second time changes nothing. */
  lemma BuildIdempotent(table: Table)
    ensures Built(Built(table)) == Built(table)
  {
    var once, twice := Built(table), Built(Built(table));
    assert once.Keys == twice.Keys;
    forall c | c in once ensures twice[c] == once[c] {
    }
  }

  // --------------------------------------------------------- table size

  /** The cells of columns 1..n (all sixteen rows). */
  function Columns(n: int): set<Cell> {
    set x, y | 1 <= x <= n && 1 <= y <= Size :: (x, y)
  }

  /** Cells (x, 1..m) of one column. */
  function ColumnPart(x: int, m: int): set<Cell> {
    set y | 1 <= y <= m :: (x, y)
  }

  lemma {:induction false} ColumnPartSize(x: int, m: nat)
    ensures |ColumnPart(x, m)| == m
  {
    if m > 0 {
      ColumnPartSize(x, m - 1);
      assert ColumnPart(x, m) == ColumnPart(x, m - 1) + {(x, m)};
    }
  }

  lemma {:induction false} ColumnsSize(n: nat)
    ensures |Columns(n)| == Size * n
  {
    if n > 0 {
      ColumnsSize(n - 1);
      ColumnPartSize(n, Size);
      assert Columns(n) == Columns(n - 1) + ColumnPart(n, Size);
      assert Columns(n - 1) * ColumnPart(n, Size) == {};
    }
  }

  /** Built from an empty table, the table has exactly the 256 board cells
      as keys. */
  lemma TableHas256Keys()
    ensures Built(map[]).Keys == BoardCells()
    ensures |Built(map[]).Keys| == 256
  {
    ColumnsSize(Size);
    assert Columns(Size) == BoardCells();
  }
}
