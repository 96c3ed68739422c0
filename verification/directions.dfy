/** The four grid directions, their numeric constants, their grid deltas and
    their negation. */
module Directions {
  import opened Basics

  datatype Direction = Up | Left | Right | Down

  /** The numeric constant the client gives each direction. */
  function Code(d: Direction): (c: int)
    ensures c == 1 <==> d == Up
    ensures c == 2 <==> d == Left
    ensures c == 3 <==> d == Right
    ensures c == 4 <==> d == Down
  {
    match d
    case Up => 1
    case Left => 2
    case Right => 3
    case Down => 4
  }

  /** Reads a direction back from its constant; other numbers are not directions. */
  function FromCode(c: int): (r: Option<Direction>)
    ensures r.Some? <==> 1 <= c <= 4
    ensures r.Some? ==> Code(r.value) == c
  {
    if c == 1 then Some(Up)
    else if c == 2 then Some(Left)
    else if c == 3 then Some(Right)
    else if c == 4 then Some(Down)
    else None
  }

  /** The four constants are pairwise distinct and `FromCode` inverts `Code`. */
  lemma CodeRoundTrip(d: Direction, e: Direction)
    ensures FromCode(Code(d)) == Some(d)
    ensures Code(d) == Code(e) <==> d == e
  {
  }

  /** The opposite direction. The client calls a negation it does not define
      itself; this model assumes the geometric opposite. */
  function Negate(d: Direction): (r: Direction)
    ensures r != d
  {
    match d
    case Up => Down
    case Down => Up
    case Left => Right
    case Right => Left
  }

  /** Negation of a possibly missing direction; a missing direction stays missing. */
  function NegateOpt(d: Option<Direction>): (r: Option<Direction>)
    ensures r.Some? <==> d.Some?
    ensures d.Some? ==> r.value == Negate(d.value)
  {
    match d
    case None => None
    case Some(v) => Some(Negate(v))
  }

  /** The grid cell one step from `p` in direction `d`; y grows downwards. */
  function Move(p: Pos, d: Direction): (q: Pos)
    ensures d == Left ==> q == Pos(p.x - 1, p.y)
    ensures d == Right ==> q == Pos(p.x + 1, p.y)
    ensures d == Up ==> q == Pos(p.x, p.y - 1)
    ensures d == Down ==> q == Pos(p.x, p.y + 1)
  {
    match d
    case Up => Pos(p.x, p.y - 1)
    case Left => Pos(p.x - 1, p.y)
    case Right => Pos(p.x + 1, p.y)
    case Down => Pos(p.x, p.y + 1)
  }

  /** Negation is an involution, and moving in a direction then in its
      negation returns to the start. */
  lemma NegateInverse(d: Direction, p: Pos)
    ensures Negate(Negate(d)) == d
    ensures Move(Move(p, d), Negate(d)) == p
  {
  }

  /** A move changes exactly one coordinate by exactly one. */
  predicate UnitStep(p: Pos, q: Pos) {
    (p.x == q.x && (q.y == p.y + 1 || q.y == p.y - 1))
    || (p.y == q.y && (q.x == p.x + 1 || q.x == p.x - 1))
  }

  lemma MoveIsUnitStep(p: Pos, d: Direction)
    ensures UnitStep(p, Move(p, d))
    ensures Move(p, d) != p
  {
  }
}
