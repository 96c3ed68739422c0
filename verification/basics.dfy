/** Shared vocabulary of the client model: optional values, grid positions,
    player identifiers, timer handles and keyboard events. */
module Basics {

  /** A value that may be absent: the client's `null` / `undefined`. */
  datatype Option<+T> = None | Some(value: T)

  /** A grid position. The wire format is 1-based; the client works 0-based. */
  datatype Pos = Pos(x: int, y: int)

  /** Player and room identifiers are opaque strings (UUID-shaped). */
  type Id = string

  /** Handle of a recurring poll timer, as returned by the browser. */
  type TimerId = nat

  /** A keyboard event: its key code and whether shift was held. */
  datatype Key = Key(code: int, shift: bool)

  /** Key codes the client reacts to. */
  const Backspace: int := 8
  const Tab: int := 9
  const Enter: int := 13
  const Escape: int := 27
  const ArrowLeft: int := 37
  const ArrowUp: int := 38
  const ArrowRight: int := 39
  const ArrowDown: int := 40

  /** Shifts a position by `d` on both axes (the 0-based / 1-based conversion). */
  function Shift(p: Pos, d: int): (q: Pos)
    ensures q.x - p.x == d && q.y - p.y == d
  {
    Pos(p.x + d, p.y + d)
  }

  /** The message shown for a failed request: a status of 0 means the server
      could not be reached at all. */
  function ErrorText(status: int, body: string): (msg: string)
    ensures status == 0 ==> msg == "Could not connect to the server"
    ensures status != 0 ==> msg == body
  {
    if status == 0 then "Could not connect to the server" else body
  }
}
