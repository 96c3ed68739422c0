/** One polled game-state snapshot, read by the match scene: which tiles carry
    a live token and which a trail, whose turn it now is and whether that is
    worth a notice, where the local token stands, and what is drawn for each
    live player. */
module Reconcile {
  import opened Basics
  import opened Directions
  import opened PlayerOrder
  import opened Trail
  import Board

  /** A map tile as the server sends it: 1-based coordinates, the player on it
      (if any) and whether it is part of a trail. */
  datatype Tile = Tile(x: int, y: int, player: Option<Id>, occupied: bool)

  /** The fields of a game-state snapshot the client reads. */
  datatype Snapshot = Snapshot(
    tiles: seq<Tile>,
    currentPlayer: Id,
    numberOfPlayers: int,
    history: map<Id, seq<Pos>>)

  // ------------------------------------------------------ tile classification

  /** Tiles with a player are split by `occupied`: occupied ones are trail
      tiles, the others hold a live token. Tiles without a player are skipped.
      Both lists keep the snapshot's order. */
  datatype Classified = Classified(tokens: seq<Tile>, lines: seq<Tile>)

  function Classify(tiles: seq<Tile>): (r: Classified)
    ensures forall i :: 0 <= i < |r.tokens| ==> r.tokens[i].player.Some? && !r.tokens[i].occupied
    ensures forall i :: 0 <= i < |r.lines| ==> r.lines[i].player.Some? && r.lines[i].occupied
    ensures |r.tokens| + |r.lines| <= |tiles|
    decreases |tiles|
  {
    if |tiles| == 0 then Classified([], [])
    else
      var rest := Classify(tiles[1..]);
      var t := tiles[0];
      if t.player.None? then rest
      else if t.occupied then rest.(lines := [t] + rest.lines)
      else rest.(tokens := [t] + rest.tokens)
  }

  /** The number of tiles that carry a player. */
  function Owned(tiles: seq<Tile>): nat
    decreases |tiles|
  {
    if |tiles| == 0 then 0 else (if tiles[0].player.Some? then 1 else 0) + Owned(tiles[1..])
  }

  /** Every tile with a player lands in exactly one of the two lists, and
      together the lists hold as many tiles as carry a player. */
  lemma {:induction false} ClassifyPartitions(tiles: seq<Tile>)
    ensures var r := Classify(tiles);
            && |r.tokens| + |r.lines| == Owned(tiles)
            && (forall t :: t in tiles && t.player.Some? ==>
                  (t in r.tokens <==> !t.occupied) && (t in r.lines <==> t.occupied))
            && (forall t :: t in r.tokens || t in r.lines ==> t in tiles)
    decreases |tiles|
  {
    if |tiles| > 0 {
      ClassifyPartitions(tiles[1..]);
      assert tiles == [tiles[0]] + tiles[1..];
    }
  }

  /** Classifying a tile in front of others puts it in front of the list it
      belongs to: the token list when it has a player and is not a trail, the
      line list when it has a player and is a trail; otherwise it is skipped. */
  lemma ClassifyCons(t: Tile, rest: seq<Tile>)
    ensures Classify([t] + rest).tokens == (if t.player.Some? && !t.occupied then [t] else []) + Classify(rest).tokens
    ensures Classify([t] + rest).lines == (if t.player.Some? && t.occupied then [t] else []) + Classify(rest).lines
  {
    assert ([t] + rest)[1..] == rest;
  }

  /** Classifying a concatenation classifies each part and concatenates the
      results, so each list keeps the tiles in the snapshot's order. */
  lemma {:induction false} ClassifyAppend(a: seq<Tile>, b: seq<Tile>)
    ensures Classify(a + b).tokens == Classify(a).tokens + Classify(b).tokens
    ensures Classify(a + b).lines == Classify(a).lines + Classify(b).lines
    decreases |a|
  {
    if |a| > 0 {
      assert a == [a[0]] + a[1..];
      assert a + b == [a[0]] + (a[1..] + b);
      ClassifyCons(a[0], a[1..]);
      ClassifyCons(a[0], a[1..] + b);
      ClassifyAppend(a[1..], b);
    } else {
      assert a + b == b;
    }
  }

  /** A tile with a player as a sortable record (1-based position and owner). */
  function Record(t: Tile): PlayerTile
    requires t.player.Some?
  {
    PlayerTile(t.x, t.y, t.player.value)
  }

  /** The live tokens of a snapshot, in the snapshot's order. */
  function Tokens(tiles: seq<Tile>): (r: seq<PlayerTile>)
    ensures |r| == |Classify(tiles).tokens|
    ensures forall i :: 0 <= i < |r| ==> r[i] == Record(Classify(tiles).tokens[i])
  {
    var ts := Classify(tiles).tokens;
    seq(|ts|, i requires 0 <= i < |ts| => Record(ts[i]))
  }

  /** The token records of a concatenation are those of each part, in order:
      a token tile comes before every token tile that follows it in the
      snapshot. */
  lemma TokensAppend(a: seq<Tile>, b: seq<Tile>)
    ensures Tokens(a + b) == Tokens(a) + Tokens(b)
  {
    ClassifyAppend(a, b);
    var l, r := Tokens(a + b), Tokens(a) + Tokens(b);
    assert |l| == |r|;
    forall i | 0 <= i < |l| ensures l[i] == r[i] {
      if i < |Tokens(a)| {
        assert Classify(a + b).tokens[i] == Classify(a).tokens[i];
      } else {
        assert Classify(a + b).tokens[i] == Classify(b).tokens[i - |Tokens(a)|];
      }
    }
  }

  // ------------------------------------------------------------ live position

  /** The first token tile of player `id`, if there is one. */
  function FindToken(tokens: seq<PlayerTile>, id: Id): (r: Option<nat>)
    ensures r.Some? <==> exists i :: 0 <= i < |tokens| && tokens[i].id == id
    ensures r.Some? ==> r.value < |tokens| && tokens[r.value].id == id
    ensures r.Some? ==> forall j :: 0 <= j < r.value ==> tokens[j].id != id
    decreases |tokens|
  {
    if |tokens| == 0 then None
    else if tokens[0].id == id then Some(0)
    else
      var k := FindToken(tokens[1..], id);
      if k.None? then
        assert forall i :: 1 <= i < |tokens| ==> tokens[i].id == tokens[1..][i - 1].id;
        None
      else
        assert tokens[k.value + 1] == tokens[1..][k.value];
        Some(k.value + 1)
  }

  /** The local token's 0-based position: the first token tile of the local
      player, shifted down by one on both axes; kept as it was when the local
      player (possibly still unknown) has no token in the snapshot. */
  function LivePosition(tokens: seq<PlayerTile>, local: Option<Id>, prev: Pos): (p: Pos)
    ensures (forall i :: 0 <= i < |tokens| ==> Some(tokens[i].id) != local) ==> p == prev
    ensures forall i :: 0 <= i < |tokens| && Some(tokens[i].id) == local &&
                        (forall j :: 0 <= j < i ==> Some(tokens[j].id) != local) ==>
              p == Pos(tokens[i].x - 1, tokens[i].y - 1)
  {
    if local.None? then prev
    else
      match FindToken(tokens, local.value)
      case None => prev
      case Some(i) => Pos(tokens[i].x - 1, tokens[i].y - 1)
  }

  // ------------------------------------------------------------ turn notices

  datatype Notice = YourTurn | OthersTurn

  /** The turn notice raised by a snapshot, from the previously known turn
      holder `prev`, the local player and the snapshot's current player. An
      unknown turn holder or local player compares like the client's `null`. */
  function TurnNotice(prev: Option<Id>, local: Option<Id>, current: Id): (r: Option<Notice>)
    ensures r == Some(YourTurn) <==> local == Some(current) && prev != Some(current)
    ensures r == Some(OthersTurn) <==> local != Some(current) && prev != Some(current) && prev != local
    ensures r.None? <==> prev == Some(current) || (prev == local && local != Some(current))
  {
    if local == Some(current) && prev != Some(current) then Some(YourTurn)
    else if prev != Some(current) && prev != local then Some(OthersTurn)
    else None
  }

  /** A notice is raised only when the turn holder changes, so polling the
      same turn again stays silent; the local player is not told it is someone
      else's turn when the turn passes away from them; and a change of turn to
      the local player is always announced. */
  lemma TurnNoticeOnChangeOnly(prev: Option<Id>, local: Option<Id>, current: Id)
    ensures TurnNotice(Some(current), local, current).None?
    ensures TurnNotice(prev, local, current).Some? ==> prev != Some(current)
    ensures prev == local && local != Some(current) ==> TurnNotice(prev, local, current).None?
    ensures prev != Some(current) ==> TurnNotice(prev, Some(current), current) == Some(YourTurn)
  {
  }

  // ---------------------------------------------------------- drawing players

  /** The colour recorded for a player, if any. */
  function ColorOf(colors: map<Id, int>, id: Id): (c: Option<int>)
    ensures c.Some? <==> id in colors
    ensures c.Some? ==> c.value == colors[id]
  {
    if id in colors then Some(colors[id]) else None
  }

  /** What is drawn for one live player: its token (0-based) in its colour and,
      once its history was read, the trail derived from it. */
  datatype PlayerDrawing = PlayerDrawing(token: Pos, color: Option<int>, trail: Option<PlayerTrail>)

  /** The drawings for the ranked token tiles, in rank order. The token is
      placed before the history is read, so a player missing from the history
      still gets its token drawn, after which the client throws and nothing
      more is drawn. With a history of two or more positions, the segments are
      drawn and then the tile at the last position is turned; that throws
      unless a token placed so far stands there, and then the player is drawn
      without a facing and nothing more is drawn. `complete` tells whether
      every player was drawn in full. */
  datatype Drawing = Drawing(players: seq<PlayerDrawing>, complete: bool)

  predicate HistoryCovers(history: map<Id, seq<Pos>>, ranked: seq<PlayerTile>) {
    forall i :: 0 <= i < |ranked| ==> ranked[i].id in history
  }

  /** The last position of `steps` holds the token of one of the first i + 1
      ranked players (1-based on both sides), or no turn is made at all. */
  predicate Turnable(ranked: seq<PlayerTile>, i: nat, steps: seq<Pos>)
    requires i < |ranked|
  {
    |steps| < 2 ||
    exists k :: 0 <= k <= i && ranked[k].x == steps[|steps| - 1].x && ranked[k].y == steps[|steps| - 1].y
  }

  /** Ranked player i is drawn without the client throwing. */
  predicate Drawable(ranked: seq<PlayerTile>, history: map<Id, seq<Pos>>, i: nat)
    requires i < |ranked|
  {
    ranked[i].id in history && Turnable(ranked, i, history[ranked[i].id])
  }

  /** The client's grid after the tokens of ranked players 0 .. n-1 are
      placed, each at its 0-based cell. */
  function PlaceTokens(b: Board.Board, ranked: seq<PlayerTile>, n: nat): (b': Board.Board)
    requires Board.WellFormed(b) && n <= |ranked|
    requires forall k :: 0 <= k < n ==> Board.InRange(b, ranked[k].x - 1, ranked[k].y - 1)
    ensures Board.WellFormed(b') && b'.width == b.width && b'.height == b.height
    decreases n
  {
    if n == 0 then b
    else
      var prev := PlaceTokens(b, ranked, n - 1);
      assert Board.InRange(b, ranked[n - 1].x - 1, ranked[n - 1].y - 1);
      Board.AddPlayer(prev, ranked[n - 1].x - 1, ranked[n - 1].y - 1, None)
  }

  /** On a fresh grid, a cell holds a token exactly when one of the first n
      ranked tokens stands on it, and holds nothing else. */
  lemma {:induction false} PlacedTokens(width: nat, height: nat, ranked: seq<PlayerTile>, n: nat)
    requires n <= |ranked|
    requires forall k :: 0 <= k < n ==> Board.InRange(Board.NewBoard(width, height), ranked[k].x - 1, ranked[k].y - 1)
    ensures forall r, c :: 0 <= r < height && 0 <= c < width ==>
              && (PlaceTokens(Board.NewBoard(width, height), ranked, n).tiles[r][c].Some? ==>
                    PlaceTokens(Board.NewBoard(width, height), ranked, n).tiles[r][c].value.Head?)
              && (PlaceTokens(Board.NewBoard(width, height), ranked, n).tiles[r][c].Some? <==>
                    exists k :: 0 <= k < n && ranked[k].x - 1 == c && ranked[k].y - 1 == r)
  {
    if n > 0 {
      PlacedTokens(width, height, ranked, n - 1);
      var prev := PlaceTokens(Board.NewBoard(width, height), ranked, n - 1);
      var b := PlaceTokens(Board.NewBoard(width, height), ranked, n);
      var x, y := ranked[n - 1].x - 1, ranked[n - 1].y - 1;
      assert b == Board.AddPlayer(prev, x, y, None);
      forall r, c | 0 <= r < height && 0 <= c < width
        ensures b.tiles[r][c].Some? ==> b.tiles[r][c].value.Head?
        ensures b.tiles[r][c].Some? <==> exists k :: 0 <= k < n && ranked[k].x - 1 == c && ranked[k].y - 1 == r
      {
        if (r, c) == (y, x) {
          assert ranked[n - 1].x - 1 == c && ranked[n - 1].y - 1 == r;
        } else {
          assert b.tiles[r][c] == prev.tiles[r][c];
          if exists k :: 0 <= k < n && ranked[k].x - 1 == c && ranked[k].y - 1 == r {
            var k :| 0 <= k < n && ranked[k].x - 1 == c && ranked[k].y - 1 == r;
            assert k < n - 1;
          }
        }
      }
    }
  }

  /** `Turnable` is the grid's own condition: with the tokens of ranked
      players 0 .. i placed, turning the cell of player i's last history entry
      succeeds exactly when `Turnable` holds. */
  lemma TurnableOnBoard(width: nat, height: nat, ranked: seq<PlayerTile>, i: nat, steps: seq<Pos>, d: Direction)
    requires i < |ranked| && |steps| >= 2
    requires forall k :: 0 <= k <= i ==> Board.InRange(Board.NewBoard(width, height), ranked[k].x - 1, ranked[k].y - 1)
    ensures var last := steps[|steps| - 1];
            Board.SetPlayerDirection(PlaceTokens(Board.NewBoard(width, height), ranked, i + 1), last.x - 1, last.y - 1, d).Some?
            <==> Turnable(ranked, i, steps)
  {
    PlacedTokens(width, height, ranked, i + 1);
    var last := steps[|steps| - 1];
    if Turnable(ranked, i, steps) {
      var k :| 0 <= k <= i && ranked[k].x == last.x && ranked[k].y == last.y;
      assert Board.InRange(Board.NewBoard(width, height), ranked[k].x - 1, ranked[k].y - 1);
    }
  }

  /** The drawings from ranked player i on. */
  function DrawFrom(ranked: seq<PlayerTile>, colors: map<Id, int>, history: map<Id, seq<Pos>>, i: nat): (d: Drawing)
    requires i <= |ranked|
    ensures d.complete <==> forall j :: i <= j < |ranked| ==> Drawable(ranked, history, j)
    ensures |d.players| <= |ranked| - i
    ensures d.complete ==> |d.players| == |ranked| - i
    ensures !d.complete ==> |d.players| > 0
    decreases |ranked| - i
  {
    if i == |ranked| then Drawing([], true)
    else
      var t := ranked[i];
      var color := ColorOf(colors, t.id);
      var token := Pos(t.x - 1, t.y - 1);
      if t.id !in history then
        assert !Drawable(ranked, history, i);
        Drawing([PlayerDrawing(token, color, None)], false)
      else
        var trail := TrailOf(history[t.id], color);
        if !Turnable(ranked, i, history[t.id]) then
          assert !Drawable(ranked, history, i);
          Drawing([PlayerDrawing(token, color, Some(trail.(facing := None)))], false)
        else
          var rest := DrawFrom(ranked, colors, history, i + 1);
          Drawing([PlayerDrawing(token, color, Some(trail))] + rest.players, rest.complete)
  }

  function DrawPlayers(ranked: seq<PlayerTile>, colors: map<Id, int>, history: map<Id, seq<Pos>>): (d: Drawing)
    ensures d.complete <==> forall i :: 0 <= i < |ranked| ==> Drawable(ranked, history, i)
    ensures d.complete ==> HistoryCovers(history, ranked)
    ensures |d.players| <= |ranked|
    ensures d.complete ==> |d.players| == |ranked|
    ensures !d.complete ==> |d.players| > 0
  {
    var d := DrawFrom(ranked, colors, history, 0);
    assert d.complete ==> HistoryCovers(history, ranked) by {
      if d.complete {
        forall i | 0 <= i < |ranked| ensures ranked[i].id in history {
          assert Drawable(ranked, history, i);
        }
      }
    }
    d
  }

  /** Drawn player j of the drawing from i on is ranked token i + j. */
  lemma {:induction false} DrawnFromInRankOrder(ranked: seq<PlayerTile>, colors: map<Id, int>, history: map<Id, seq<Pos>>, i: nat, j: nat)
    requires i <= |ranked| && j < |DrawFrom(ranked, colors, history, i).players|
    ensures i + j < |ranked|
    ensures var p := DrawFrom(ranked, colors, history, i).players[j];
            var t := ranked[i + j];
            && p.token == Pos(t.x - 1, t.y - 1)
            && p.color == ColorOf(colors, t.id)
            && (t.id !in history ==> p.trail.None?)
            && (Drawable(ranked, history, i + j) ==> p.trail == Some(TrailOf(history[t.id], p.color)))
            && (t.id in history && !Drawable(ranked, history, i + j) ==>
                  p.trail == Some(TrailOf(history[t.id], p.color).(facing := None)))
    decreases j
  {
    if j > 0 {
      DrawnFromInRankOrder(ranked, colors, history, i + 1, j - 1);
    }
  }

  /** Player i of the drawing is the i-th ranked token: its 0-based position,
      its frozen colour and, when its history is present, the trail derived
      from that history in that colour, without the facing when turning the
      token would throw. */
  lemma DrawnInRankOrder(ranked: seq<PlayerTile>, colors: map<Id, int>, history: map<Id, seq<Pos>>, i: nat)
    requires i < |DrawPlayers(ranked, colors, history).players|
    ensures var p := DrawPlayers(ranked, colors, history).players[i];
            && p.token == Pos(ranked[i].x - 1, ranked[i].y - 1)
            && p.color == ColorOf(colors, ranked[i].id)
            && (ranked[i].id !in history ==> p.trail.None?)
            && (Drawable(ranked, history, i) ==> p.trail == Some(TrailOf(history[ranked[i].id], p.color)))
            && (ranked[i].id in history && !Drawable(ranked, history, i) ==>
                  p.trail == Some(TrailOf(history[ranked[i].id], p.color).(facing := None)))
  {
    DrawnFromInRankOrder(ranked, colors, history, 0, i);
  }

  /** An incomplete drawing from i on stops at the first player from i on
      that cannot be drawn. */
  lemma {:induction false} DrawFromStops(ranked: seq<PlayerTile>, colors: map<Id, int>, history: map<Id, seq<Pos>>, i: nat)
    requires i <= |ranked| && !DrawFrom(ranked, colors, history, i).complete
    ensures var n := |DrawFrom(ranked, colors, history, i).players|;
            && i + n <= |ranked|
            && !Drawable(ranked, history, i + n - 1)
            && forall j :: i <= j < i + n - 1 ==> Drawable(ranked, history, j)
    decreases |ranked| - i
  {
    if Drawable(ranked, history, i) {
      DrawFromStops(ranked, colors, history, i + 1);
    }
  }

  /** An incomplete drawing stops right at the first ranked player that cannot
      be drawn, because it has no history or its last position holds no token
      yet: everyone before it was drawn in full and it was drawn last. */
  lemma DrawingStopsAtFirstMissing(ranked: seq<PlayerTile>, colors: map<Id, int>, history: map<Id, seq<Pos>>)
    requires !DrawPlayers(ranked, colors, history).complete
    ensures var n := |DrawPlayers(ranked, colors, history).players|;
            && !Drawable(ranked, history, n - 1)
            && forall j :: 0 <= j < n - 1 ==> Drawable(ranked, history, j)
  {
    DrawFromStops(ranked, colors, history, 0);
  }

  /** A player whose history ends on its own token is always turnable, so a
      snapshot where every ranked player has a history ending where its token
      stands is drawn in full. */
  lemma {:induction false} OwnTokenDrawsFully(ranked: seq<PlayerTile>, colors: map<Id, int>, history: map<Id, seq<Pos>>)
    requires forall i :: 0 <= i < |ranked| ==> ranked[i].id in history
    requires forall i :: 0 <= i < |ranked| && |history[ranked[i].id]| >= 2 ==>
               var last := history[ranked[i].id][|history[ranked[i].id]| - 1];
               last.x == ranked[i].x && last.y == ranked[i].y
    ensures DrawPlayers(ranked, colors, history).complete
  {
    forall i | 0 <= i < |ranked| ensures Drawable(ranked, history, i) {
      var steps := history[ranked[i].id];
      if |steps| >= 2 {
        assert ranked[i].x == steps[|steps| - 1].x && ranked[i].y == steps[|steps| - 1].y;
      }
    }
  }
}
