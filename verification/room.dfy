/** The server's room record: a master, the players in the order they joined,
    and a ready flag that each call of the toggle flips. The type of a player
    is left open. */
module ServerRoom {

  datatype Room<P> = Room(master: P, players: seq<P>, ready: bool)

  /** A new room: the given master, nobody joined, not ready. */
  function NewRoom<P>(master: P): (r: Room<P>)
    ensures r.master == master && |r.players| == 0 && !r.ready
  {
    Room(master, [], false)
  }

  /** The player joins at the end of the list; master and flag are kept. */
  function AddPlayer<P>(r: Room<P>, p: P): (r': Room<P>)
    ensures r'.master == r.master && r'.ready == r.ready
    ensures |r'.players| == |r.players| + 1 && r'.players[|r.players|] == p
    ensures r'.players[..|r.players|] == r.players
  {
    r.(players := r.players + [p])
  }

  /** The players in the order they joined. */
  function GetPlayers<P>(r: Room<P>): (ps: seq<P>)
    ensures |ps| == |r.players|
    ensures forall i :: 0 <= i < |ps| ==> ps[i] == r.players[i]
  {
    r.players
  }

  /** Flips the ready flag and changes nothing else. */
  function SetReady<P>(r: Room<P>): (r': Room<P>)
    ensures r'.ready != r.ready
    ensures r'.master == r.master && r'.players == r.players
  {
    r.(ready := !r.ready)
  }

  /** Flipping twice restores the room. */
  lemma SetReadyTwice<P>(r: Room<P>)
    ensures SetReady(SetReady(r)) == r
  {
  }

  /** Players added one after another, in order. */
  function AddAll<P>(r: Room<P>, ps: seq<P>): (r': Room<P>)
    ensures r'.master == r.master && r'.ready == r.ready
    decreases |ps|
  {
    if |ps| == 0 then r else AddAll(AddPlayer(r, ps[0]), ps[1..])
  }

  /** Joining players one by one lists them after those already there, in the
      order they joined. */
  lemma {:induction false} AddAllAppends<P>(r: Room<P>, ps: seq<P>)
    ensures GetPlayers(AddAll(r, ps)) == r.players + ps
    decreases |ps|
  {
    if |ps| > 0 {
      AddAllAppends(AddPlayer(r, ps[0]), ps[1..]);
      assert r.players + [ps[0]] + ps[1..] == r.players + ps;
    }
  }

  /** So a fresh room's list is exactly the players that joined it, in join
      order, and the ready flag is still off. */
  lemma JoinOrderKept<P>(master: P, ps: seq<P>)
    ensures GetPlayers(AddAll(NewRoom(master), ps)) == ps
    ensures !AddAll(NewRoom(master), ps).ready
  {
    AddAllAppends(NewRoom(master), ps);
    assert [] + ps == ps;
  }
}
