/** The client's tile grid: `height` rows of `width` cells, each empty or
    holding the element last placed there. */
module Board {
  import opened Basics
  import opened Directions

  /** What a grid cell can hold. `Head` is the player token; it starts facing up
      and ignores the colour it is placed with. */
  datatype Cell =
    | PendingMark(at: Pos, color: Option<int>)
    | Head(at: Pos, facing: Direction)

  datatype Board = Board(width: nat, height: nat, tiles: seq<seq<Option<Cell>>>)

  /** Rows and columns have the declared sizes. */
  predicate WellFormed(b: Board) {
    |b.tiles| == b.height && forall r :: 0 <= r < |b.tiles| ==> |b.tiles[r]| == b.width
  }

  predicate InRange(b: Board, x: int, y: int) {
    0 <= y < b.height && 0 <= x < b.width
  }

  /** A new grid has the requested shape and every cell empty. */
  function NewBoard(width: nat, height: nat): (b: Board)
    ensures WellFormed(b) && b.width == width && b.height == height
    ensures forall r, c :: 0 <= r < height && 0 <= c < width ==> b.tiles[r][c].None?
  {
    Board(width, height, seq(height, _ => seq(width, _ => None)))
  }

  /** Writes one cell; nothing else changes. */
  function Put(b: Board, x: int, y: int, v: Option<Cell>): (b': Board)
    requires WellFormed(b) && InRange(b, x, y)
    ensures WellFormed(b') && b'.width == b.width && b'.height == b.height
    ensures b'.tiles[y][x] == v
    ensures forall r, c :: 0 <= r < b.height && 0 <= c < b.width && (r, c) != (y, x) ==>
              b'.tiles[r][c] == b.tiles[r][c]
  {
    b.(tiles := b.tiles[y := b.tiles[y][x := v]])
  }

  /** Marks a queued move at (x, y) in the mover's colour. */
  function AddPendingMove(b: Board, x: int, y: int, color: Option<int>): (b': Board)
    requires WellFormed(b) && InRange(b, x, y)
    ensures WellFormed(b') && b'.width == b.width && b'.height == b.height
    ensures b'.tiles[y][x] == Some(PendingMark(Pos(x, y), color))
    ensures forall r, c :: 0 <= r < b.height && 0 <= c < b.width && (r, c) != (y, x) ==>
              b'.tiles[r][c] == b.tiles[r][c]
  {
    Put(b, x, y, Some(PendingMark(Pos(x, y), color)))
  }

  /** Places a player token, facing up, at (x, y). The client passes a colour
      as a third argument, which is dropped. */
  function AddPlayer(b: Board, x: int, y: int, color: Option<int>): (b': Board)
    requires WellFormed(b) && InRange(b, x, y)
    ensures WellFormed(b') && b'.width == b.width && b'.height == b.height
    ensures b'.tiles[y][x] == Some(Head(Pos(x, y), Up))
    ensures forall r, c :: 0 <= r < b.height && 0 <= c < b.width && (r, c) != (y, x) ==>
              b'.tiles[r][c] == b.tiles[r][c]
  {
    Put(b, x, y, Some(Head(Pos(x, y), Up)))
  }

  /** Turns the token at (x, y). The client calls the tile's turning method,
      which only a token has: an empty or missing tile, or one holding a
      pending mark, makes the call throw, shown here as `None`. */
  function SetPlayerDirection(b: Board, x: int, y: int, d: Direction): (r: Option<Board>)
    requires WellFormed(b)
    ensures r.Some? <==> InRange(b, x, y) && b.tiles[y][x].Some? && b.tiles[y][x].value.Head?
    ensures r.Some? ==> WellFormed(r.value) && r.value.width == b.width && r.value.height == b.height
    ensures r.Some? ==> r.value.tiles[y][x] == Some(Head(b.tiles[y][x].value.at, d))
    ensures r.Some? ==> forall row, c :: 0 <= row < b.height && 0 <= c < b.width && (row, c) != (y, x) ==>
                          r.value.tiles[row][c] == b.tiles[row][c]
  {
    if !InRange(b, x, y) then None
    else
      match b.tiles[y][x]
      case None => None
      case Some(cell) => if cell.Head? then Some(Put(b, x, y, Some(Head(cell.at, d)))) else None
  }

  /** A freshly placed token can be turned, and turning it only changes the
      direction it faces; a pending mark cannot be turned. */
  lemma TurnAfterPlace(b: Board, x: int, y: int, color: Option<int>, d: Direction)
    requires WellFormed(b) && InRange(b, x, y)
    ensures SetPlayerDirection(AddPlayer(b, x, y, color), x, y, d) == Some(Put(b, x, y, Some(Head(Pos(x, y), d))))
    ensures SetPlayerDirection(AddPendingMove(b, x, y, color), x, y, d).None?
  {
    PutOverwritesAndCommutes(b, x, y, x, y, Some(Head(Pos(x, y), Up)), Some(Head(Pos(x, y), d)));
  }

  /** Placing two things on the same cell keeps only the second, and writes to
      different cells commute. */
  lemma PutOverwritesAndCommutes(b: Board, x: int, y: int, x2: int, y2: int, v: Option<Cell>, w: Option<Cell>)
    requires WellFormed(b) && InRange(b, x, y) && InRange(b, x2, y2)
    ensures Put(Put(b, x, y, v), x, y, w) == Put(b, x, y, w)
    ensures (x, y) != (x2, y2) ==>
              Put(Put(b, x, y, v), x2, y2, w) == Put(Put(b, x2, y2, w), x, y, v)
  {
    var b1 := Put(Put(b, x, y, v), x, y, w);
    var b2 := Put(b, x, y, w);
    assert b1.tiles == b2.tiles by {
      assert |b1.tiles| == |b2.tiles|;
      forall r | 0 <= r < |b1.tiles|
        ensures b1.tiles[r] == b2.tiles[r]
      {
      }
    }
    if (x, y) != (x2, y2) {
      var c1 := Put(Put(b, x, y, v), x2, y2, w);
      var c2 := Put(Put(b, x2, y2, w), x, y, v);
      assert c1.tiles == c2.tiles by {
        assert |c1.tiles| == |c2.tiles|;
        forall r | 0 <= r < |c1.tiles|
          ensures c1.tiles[r] == c2.tiles[r]
        {
          assert |c1.tiles[r]| == |c2.tiles[r]|;
        }
      }
    }
  }
}
