/** The match scene: the queue of speculative moves built from the keyboard,
    submitting it, and folding each polled game-state snapshot (or a failed
    poll) into the scene's state. */
module TronGame {
  import opened Basics
  import opened Directions
  import opened PlayerOrder
  import opened Reconcile
  import opened Effects
  import opened Dialogs

  /** The match scene's state. `player` is the local token's 0-based position,
      `pending` the queued moves (0-based, oldest first), `activePlayer` the
      last turn holder seen, `colors` the frozen colour map and `interval` the
      handle of the running state poll, if any. */
  datatype MatchState = MatchState(
    localId: Option<Id>,
    pending: seq<Pos>,
    player: Pos,
    dialog: Option<OpenDialog>,
    started: bool,
    activePlayer: Option<Id>,
    colors: map<Id, int>,
    interval: Option<TimerId>)

  /** A scene's new state and the commands it issues. */
  datatype Step = Step(state: MatchState, cmds: seq<Cmd>)

  /** The largest 0-based coordinate of the 16 x 16 grid. */
  const GridMax: int := 15

  predicate InGrid(p: Pos) {
    0 <= p.x <= GridMax && 0 <= p.y <= GridMax
  }

  /** The timers the scene knows it is running. */
  function Armed(s: MatchState): set<TimerId> {
    if s.interval.Some? then {s.interval.value} else {}
  }

  /** The scene as initialised: no queue, the token at (4, 4), no turn holder,
      no colours and no poll running; the first state request goes out at once. */
  function Init(localId: Option<Id>): (r: Step)
    ensures r.state.pending == [] && r.state.dialog.None? && !r.state.started
    ensures r.state.activePlayer.None? && |r.state.colors| == 0 && Armed(r.state) == {}
    ensures r.state.localId == localId && InGrid(r.state.player)
    ensures r.state.player == Pos(4, 4) && r.state.interval.None?
    ensures r.cmds == [Send(FetchState(localId))] && Quiet(r.cmds)
  {
    Step(MatchState(localId, [], Pos(4, 4), None, false, None, map[], None), [Send(FetchState(localId))])
  }

  // --------------------------------------------------------------- move queue

  /** The direction an arrow or WASD key asks for. */
  function KeyDirection(code: int): (r: Option<Direction>)
    ensures r == Some(Left) <==> code == ArrowLeft || code == 65
    ensures r == Some(Up) <==> code == ArrowUp || code == 87
    ensures r == Some(Right) <==> code == ArrowRight || code == 68
    ensures r == Some(Down) <==> code == ArrowDown || code == 83
  {
    if code == ArrowLeft || code == 65 then Some(Left)
    else if code == ArrowUp || code == 87 then Some(Up)
    else if code == ArrowRight || code == 68 then Some(Right)
    else if code == ArrowDown || code == 83 then Some(Down)
    else None
  }

  /** Whether a step from `p` in direction `d` is allowed by the grid bounds. */
  predicate CanMove(p: Pos, d: Direction) {
    match d
    case Left => p.x > 0
    case Up => p.y > 0
    case Right => p.x < GridMax
    case Down => p.y < GridMax
  }

  /** A step allowed by the bounds stays on the grid when it starts on it. */
  lemma CanMoveStaysInGrid(p: Pos, d: Direction)
    requires InGrid(p) && CanMove(p, d)
    ensures InGrid(Move(p, d)) && UnitStep(p, Move(p, d))
  {
  }

  /** Where the next move starts: the last queued cell, or the token. */
  function Tail(s: MatchState): Pos {
    if |s.pending| > 0 then s.pending[|s.pending| - 1] else s.player
  }

  /** The colour queued moves are marked in: the local player's frozen colour,
      or 0 while no colours are known (absent if the frozen map lacks the
      local player). */
  function OwnColor(s: MatchState): (c: Option<int>)
    ensures |s.colors| == 0 ==> c == Some(0)
    ensures |s.colors| > 0 ==> c == (if s.localId.Some? && s.localId.value in s.colors
                                    then Some(s.colors[s.localId.value]) else None)
  {
    if |s.colors| == 0 then Some(0)
    else if s.localId.Some? && s.localId.value in s.colors then Some(s.colors[s.localId.value])
    else None
  }

  /** Whether a move in direction `d` is queued: the bounds allow it, the local
      player holds the turn, and the new cell is neither queued already nor
      the token's own cell. */
  predicate Admissible(s: MatchState, d: Direction) {
    && CanMove(Tail(s), d)
    && s.activePlayer == s.localId
    && Move(Tail(s), d) !in s.pending
    && Move(Tail(s), d) != s.player
  }

  function QueueMove(s: MatchState, d: Direction): (r: Step)
    ensures Admissible(s, d) ==>
              r == Step(s.(pending := s.pending + [Move(Tail(s), d)]),
                        [MarkPending(Move(Tail(s), d), OwnColor(s))])
    ensures !Admissible(s, d) ==> r == Step(s, [])
  {
    var c := Move(Tail(s), d);
    if !CanMove(Tail(s), d) || s.activePlayer != s.localId then Step(s, [])
    else if c in s.pending then Step(s, [])
    else if c == s.player then Step(s, [])
    else Step(s.(pending := s.pending + [c]), [MarkPending(c, OwnColor(s))])
  }

  /** The step list Enter submits: the token's cell and then every queued
      cell, in order, each made 1-based. */
  function Submission(s: MatchState): (steps: seq<Pos>)
    ensures |steps| == |s.pending| + 1
  {
    [Shift(s.player, 1)] + seq(|s.pending|, i requires 0 <= i < |s.pending| => Shift(s.pending[i], 1))
  }

  /** Reading a submitted step list back on the 0-based grid. */
  function Unshift(steps: seq<Pos>): (r: seq<Pos>)
    ensures |r| == |steps|
  {
    seq(|steps|, i requires 0 <= i < |steps| => Shift(steps[i], -1))
  }

  /** The submission is the token's cell followed by the queue, shifted by one:
      shifting it back gives exactly the token's cell and the queue. */
  lemma SubmissionRoundTrip(s: MatchState)
    ensures Unshift(Submission(s)) == [s.player] + s.pending
    ensures Submission(s)[0] == Shift(s.player, 1)
  {
    var u, w := Unshift(Submission(s)), [s.player] + s.pending;
    assert |u| == |w|;
    forall i | 0 <= i < |u| ensures u[i] == w[i] {
      if i > 0 {
        assert Submission(s)[i] == Shift(s.pending[i - 1], 1);
      }
    }
  }

  // ------------------------------------------------------------ dialog closing

  /** Whether closing the open dialog leaves the match: its callback returns
      to the room list outright, or does so because the game has started by
      the time it closes. */
  predicate Leaving(s: MatchState) {
    && s.dialog.Some?
    && (s.dialog.value.onClose == ReturnToRoomList || (s.dialog.value.onClose == ByGameStarted && s.started))
  }

  /** Whether closing the open dialog re-arms the state poll. */
  predicate Resuming(s: MatchState) {
    && s.dialog.Some?
    && (s.dialog.value.onClose == RemoveAndResume || (s.dialog.value.onClose == ByGameStarted && !s.started))
  }

  /** Arms the state poll unless one runs already. */
  function Resume(s: MatchState, newTimer: TimerId): (r: Step)
    ensures r.state.interval.Some? && (s.interval.Some? ==> r == Step(s, []))
    ensures s.interval.None? ==> r == Step(s.(interval := Some(newTimer)), [StartTimer(newTimer)])
  {
    if s.interval.None? then Step(s.(interval := Some(newTimer)), [StartTimer(newTimer)]) else Step(s, [])
  }

  /** Runs the open dialog's close callback. `newTimer` is the handle the
      browser would return if the callback arms a poll. */
  function CloseDialog(s: MatchState, newTimer: TimerId): (r: Step)
    requires s.dialog.Some?
    ensures Leaving(s) ==> r == Step(s, [LeaveToRoomList])
    ensures !Leaving(s) ==> r.state == s.(dialog := None, interval := r.state.interval)
    ensures s.dialog.value.onClose == Remove ==> r == Step(s.(dialog := None), [])
    ensures Resuming(s) && s.interval.Some? ==> r == Step(s.(dialog := None), [])
    ensures Resuming(s) && s.interval.None? ==>
              r == Step(s.(dialog := None, interval := Some(newTimer)), [StartTimer(newTimer)])
  {
    match s.dialog.value.onClose
    case Remove => Step(s.(dialog := None), [])
    case RemoveAndResume => Resume(s.(dialog := None), newTimer)
    case ReturnToRoomList => Step(s, [LeaveToRoomList])
    case ByGameStarted =>
      if s.started then Step(s, [LeaveToRoomList]) else Resume(s.(dialog := None), newTimer)
  }

  /** Closes whatever dialog is open before another one replaces it: unless
      that leaves the match, no dialog is open afterwards, nothing but the
      poll slot changes, and the slot changes only by arming a poll into it. */
  function CloseExisting(s: MatchState, newTimer: TimerId): (r: Step)
    ensures s.dialog.None? ==> r == Step(s, [])
    ensures Leaving(s) ==> r.cmds == [LeaveToRoomList] && r.state == s
    ensures !Leaving(s) ==> r.state == s.(dialog := None, interval := r.state.interval)
    ensures !Leaving(s) && r.state.interval != s.interval ==>
              s.interval.None? && r.state.interval == Some(newTimer) && r.cmds == [StartTimer(newTimer)]
    ensures !Leaving(s) && r.state.interval == s.interval ==> r.cmds == []
  {
    if s.dialog.None? then Step(s, []) else CloseDialog(s, newTimer)
  }

  // ------------------------------------------------------------------- keys

  /** A key press. With a dialog open the key goes to the dialog alone.
      Otherwise Escape empties the queue, Enter submits the token's cell and
      the queue, and a direction key queues a move when it is admissible. */
  function OnKey(s: MatchState, k: Key, newTimer: TimerId): (r: Step)
    ensures s.dialog.Some? ==>
              r.state.pending == s.pending && r.state.player == s.player && r.state.colors == s.colors
              && r.state.activePlayer == s.activePlayer && r.state.started == s.started
              && forall c :: c in r.cmds ==> !c.Send? && !c.MarkPending?
    ensures s.dialog.None? && k.code == Escape ==>
              r == Step(s.(pending := []), [ClearPendingMarks])
    ensures s.dialog.None? && k.code == Enter ==>
              r == Step(s, [Send(SubmitSteps(s.localId, Submission(s)))])
    ensures s.dialog.None? && KeyDirection(k.code).Some? ==>
              var d := KeyDirection(k.code).value;
              && (r.state.pending == s.pending + [Move(Tail(s), d)] <==> Admissible(s, d))
              && (!Admissible(s, d) ==> r == Step(s, []))
    ensures s.dialog.None? && k.code != Escape && k.code != Enter && KeyDirection(k.code).None? ==>
              r == Step(s, [])
  {
    if s.dialog.Some? then
      match Press(s.dialog.value, k)
      case Stay(d) => Step(s.(dialog := Some(d)), [])
      case Close => CloseDialog(s, newTimer)
      case Submit(_) => Step(s, [])
    else if k.code == Escape then Step(s.(pending := []), [ClearPendingMarks])
    else if k.code == Enter then Step(s, [Send(SubmitSteps(s.localId, Submission(s)))])
    else
      match KeyDirection(k.code)
      case None => Step(s, [])
      case Some(d) =>
        var r := QueueMove(s, d);
        assert r.state.pending == s.pending + [Move(Tail(s), d)] ==> Admissible(s, d) by {
          if !Admissible(s, d) {
            assert |r.state.pending| == |s.pending|;
          }
        }
        r
  }

  /** What key handling keeps of the queue: no cell twice, never the token's cell,
      each cell one unit step from the previous one (the first from the
      token), and all on the grid when the token is. */
  predicate QueueOk(s: MatchState) {
    && (forall i, j :: 0 <= i < j < |s.pending| ==> s.pending[i] != s.pending[j])
    && s.player !in s.pending
    && (|s.pending| > 0 ==> UnitStep(s.player, s.pending[0]))
    && (forall i :: 0 <= i < |s.pending| - 1 ==> UnitStep(s.pending[i], s.pending[i + 1]))
    && (InGrid(s.player) ==> forall i :: 0 <= i < |s.pending| ==> InGrid(s.pending[i]))
  }

  /** Key handling keeps the queue well-formed. */
  lemma OnKeyKeepsQueueOk(s: MatchState, k: Key, newTimer: TimerId)
    requires QueueOk(s)
    ensures QueueOk(OnKey(s, k, newTimer).state)
  {
    if s.dialog.None? && k.code != Escape && k.code != Enter && KeyDirection(k.code).Some? {
      var d := KeyDirection(k.code).value;
      if Admissible(s, d) {
        var c := Move(Tail(s), d);
        var q := s.pending + [c];
        MoveIsUnitStep(Tail(s), d);
        assert forall i :: 0 <= i < |s.pending| ==> q[i] == s.pending[i];
        if InGrid(s.player) {
          assert InGrid(Tail(s));
          CanMoveStaysInGrid(Tail(s), d);
        }
      }
    }
  }

  // -------------------------------------------------------- submit outcomes

  /** A successful submission empties the queue, clears its marks and polls
      the state at once. */
  function StepsAccepted(s: MatchState): (r: Step)
    ensures r.state == s.(pending := [])
    ensures r.cmds == [ClearPendingMarks, Send(FetchState(s.localId))]
  {
    Step(s.(pending := []), [ClearPendingMarks, Send(FetchState(s.localId))])
  }

  /** A failed request of the scene (the shared error handler): the open
      dialog is closed, then an error notice that only removes itself is
      shown. The queue is left as it was. */
  function RequestFailed(s: MatchState, status: int, body: string, newTimer: TimerId): (r: Step)
    ensures r.state.pending == s.pending && r.state.player == s.player
    ensures Leaving(s) ==> r == Step(s, [LeaveToRoomList])
    ensures !Leaving(s) ==> r.state.dialog == Some(ErrorDialog(ErrorText(status, body), Remove))
  {
    if Leaving(s) then Step(s, [LeaveToRoomList])
    else
      var c := CloseExisting(s, newTimer);
      Step(c.state.(dialog := Some(ErrorDialog(ErrorText(status, body), Remove))), c.cmds)
  }

  // ------------------------------------------------------------- state polls

  function StopCmds(interval: Option<TimerId>): (cmds: seq<Cmd>) {
    if interval.Some? then [StopTimer(interval.value)] else []
  }

  /** The screen updates of a drawn snapshot: the grid is cleared, the turn
      notice (if any) is shown and the players are drawn. */
  function Shown(n: Option<Notice>, d: Drawing): (cmds: seq<Cmd>)
    ensures Quiet(cmds)
    ensures |cmds| >= 2 && cmds[0] == ClearMap && cmds[|cmds| - 1] == Draw(d)
    ensures n.Some? ==> Notify(n.value) in cmds
    ensures n.None? ==> forall c :: c in cmds ==> !c.Notify?
  {
    if n.Some? then [ClearMap, Notify(n.value), Draw(d)] else [ClearMap, Draw(d)]
  }

  /** The game is over for the client once it has started and a snapshot
      reports a single player left. */
  predicate GameOver(s: MatchState, snap: Snapshot) {
    s.started && snap.numberOfPlayers == 1
  }

  /** What a successful poll draws and records, before the poll timer is
      considered: the notice and drawing commands and the updated turn holder,
      token position and colours. */
  datatype Reading = Reading(state: MatchState, shown: seq<Cmd>, complete: bool)

  function Read(s: MatchState, snap: Snapshot): (r: Reading)
    ensures r.state == s.(activePlayer := r.state.activePlayer, player := r.state.player, colors := r.state.colors)
    ensures r.state.activePlayer == Some(snap.currentPlayer)
    ensures |s.colors| > 0 ==> r.state.colors == s.colors
    ensures Quiet(r.shown)
    ensures var tokens := Tokens(snap.tiles);
            var ranked := SortTiles(tokens);
            var drawing := DrawPlayers(ranked, r.state.colors, snap.history);
            && r.state.player == LivePosition(tokens, s.localId, s.player)
            && r.state.colors == FreezeColors(s.colors, ranked)
            && r.shown == Shown(TurnNotice(s.activePlayer, s.localId, snap.currentPlayer), drawing)
            && (r.complete <==> forall i :: 0 <= i < |ranked| ==> Drawable(ranked, snap.history, i))
  {
    var tokens := Tokens(snap.tiles);
    var ranked := SortTiles(tokens);
    var colors := FreezeColors(s.colors, ranked);
    var drawing := DrawPlayers(ranked, colors, snap.history);
    var notice := TurnNotice(s.activePlayer, s.localId, snap.currentPlayer);
    Reading(
      s.(activePlayer := Some(snap.currentPlayer), player := LivePosition(tokens, s.localId, s.player), colors := colors),
      Shown(notice, drawing),
      drawing.complete)
  }

  /** A successful state poll. After the game has started, a snapshot with a
      single player opens the game-over notice and stops polling, leaving the
      grid alone. Otherwise the snapshot is drawn; if every player could be
      drawn, a poll timer is armed unless one runs already and the game counts
      as started. */
  function StatePolled(s: MatchState, snap: Snapshot, newTimer: TimerId): (r: Step)
    ensures GameOver(s, snap) ==>
              r.state == s.(dialog := Some(GameOverDialog(true, ReturnToRoomList)), interval := None)
              && r.cmds == StopCmds(s.interval)
    ensures !GameOver(s, snap) ==>
              && r.state.activePlayer == Some(snap.currentPlayer)
              && r.state.pending == s.pending && r.state.dialog == s.dialog
              && (s.interval.Some? ==> r.state.interval == s.interval && Quiet(r.cmds))
              && (r.state.interval != s.interval ==> r.state.interval == Some(newTimer) && r.state.started)
              && (s.started ==> r.state.started)
    ensures |s.colors| > 0 ==> r.state.colors == s.colors
    ensures !GameOver(s, snap) ==>
              var rd := Read(s, snap);
              && r.state.player == rd.state.player && r.state.colors == rd.state.colors
              && r.state.started == (s.started || rd.complete)
              && (!rd.complete ==> r.state.interval == s.interval && r.cmds == rd.shown)
              && (rd.complete && s.interval.Some? ==> r.state.interval == s.interval && r.cmds == rd.shown)
              && (rd.complete && s.interval.None? ==>
                    r.state.interval == Some(newTimer) && r.cmds == rd.shown + [StartTimer(newTimer)])
    ensures !GameOver(s, snap) && s.interval.None? ==>
              || (r.state.interval.None? && Quiet(r.cmds))
              || (&& r.state.interval == Some(newTimer) && |r.cmds| > 0
                  && Quiet(r.cmds[..|r.cmds| - 1]) && r.cmds[|r.cmds| - 1] == StartTimer(newTimer))
  {
    if GameOver(s, snap) then
      Step(s.(dialog := Some(GameOverDialog(true, ReturnToRoomList)), interval := None), StopCmds(s.interval))
    else
      var rd := Read(s, snap);
      if !rd.complete then Step(rd.state, rd.shown)
      else if s.interval.None? then
        Step(rd.state.(interval := Some(newTimer), started := true), rd.shown + [StartTimer(newTimer)])
      else Step(rd.state.(started := true), rd.shown)
  }

  /** A failed state poll: the open dialog is closed, polling stops, and a
      notice opens: once the game has started it is the lost-game notice,
      before that an error notice. Either way its close callback decides when
      it runs: it returns to the room list if the game has started by then,
      and otherwise removes the notice and resumes polling. If closing the
      old dialog already left the match, nothing else happens. */
  function StatePollFailed(s: MatchState, status: int, body: string, newTimer: TimerId): (r: Step)
    ensures Leaving(s) ==> r == Step(s, [LeaveToRoomList])
    ensures !Leaving(s) ==> r.state.interval.None? && r.state.pending == s.pending
    ensures !Leaving(s) && s.started ==> r.state.dialog == Some(GameOverDialog(false, ByGameStarted))
    ensures !Leaving(s) && !s.started ==>
              r.state.dialog == Some(ErrorDialog(ErrorText(status, body), ByGameStarted))
    ensures !Leaving(s) ==> Leaving(r.state) == s.started && Resuming(r.state) == !s.started
  {
    if Leaving(s) then Step(s, [LeaveToRoomList])
    else
      var c := CloseExisting(s, newTimer);
      var d := if c.state.started then GameOverDialog(false, ByGameStarted)
               else ErrorDialog(ErrorText(status, body), ByGameStarted);
      Step(c.state.(interval := None, dialog := Some(d)), c.cmds + StopCmds(c.state.interval))
  }

  /** The polled snapshot draws the ranked players in their frozen colours: the
      drawing is that of the sorted token tiles. */
  lemma PollDrawsRankedPlayers(s: MatchState, snap: Snapshot)
    requires !GameOver(s, snap)
    ensures Draw(DrawPlayers(SortTiles(Tokens(snap.tiles)), Read(s, snap).state.colors, snap.history))
              in Read(s, snap).shown
  {
  }

  // ----------------------------------------------------------------- events

  datatype MatchEvent =
    | KeyDown(key: Key)
    | StepsOk
    | StepsFailed(status: int, body: string)
    | StateOk(snapshot: Snapshot)
    | StateFailed(status: int, body: string)

  /** The match scene's reaction to one event. No event changes who the local
      player is; only a key or an accepted submission changes the queue; only
      a successful poll changes the colours, and never once they are set. */
  function Handle(s: MatchState, e: MatchEvent, newTimer: TimerId): (r: Step)
    ensures r.state.localId == s.localId
    ensures !e.KeyDown? && !e.StepsOk? ==> r.state.pending == s.pending
    ensures !e.StateOk? || |s.colors| > 0 ==> r.state.colors == s.colors
    ensures e.KeyDown? ==> r == OnKey(s, e.key, newTimer)
    ensures e.StepsOk? ==> r == StepsAccepted(s)
    ensures e.StepsFailed? ==> r == RequestFailed(s, e.status, e.body, newTimer)
    ensures e.StateOk? ==> r == StatePolled(s, e.snapshot, newTimer)
    ensures e.StateFailed? ==> r == StatePollFailed(s, e.status, e.body, newTimer)
  {
    match e
    case KeyDown(k) => OnKey(s, k, newTimer)
    case StepsOk => StepsAccepted(s)
    case StepsFailed(status, body) => RequestFailed(s, status, body, newTimer)
    case StateOk(snap) => StatePolled(s, snap, newTimer)
    case StateFailed(status, body) => StatePollFailed(s, status, body, newTimer)
  }

  /** Closing a dialog keeps every running timer one the scene knows of. */
  lemma CloseKeepsTimersTracked(s: MatchState, newTimer: TimerId, live: set<TimerId>)
    requires s.dialog.Some? && live <= Armed(s)
    ensures ApplyTimers(live, CloseDialog(s, newTimer).cmds) <= Armed(CloseDialog(s, newTimer).state)
  {
  }

  /** A key keeps the running timers within the scene's: only closing a
      dialog can arm one. */
  lemma KeyKeepsTimersTracked(s: MatchState, k: Key, newTimer: TimerId, live: set<TimerId>)
    requires live <= Armed(s)
    ensures ApplyTimers(live, OnKey(s, k, newTimer).cmds) <= Armed(OnKey(s, k, newTimer).state)
  {
    if s.dialog.Some? && Press(s.dialog.value, k).Close? {
      CloseKeepsTimersTracked(s, newTimer, live);
    } else {
      QuietKeepsTimers(live, OnKey(s, k, newTimer).cmds);
    }
  }

  /** A successful poll arms a timer only into the empty slot. */
  lemma PolledKeepsTimersTracked(s: MatchState, snap: Snapshot, newTimer: TimerId, live: set<TimerId>)
    requires live <= Armed(s)
    ensures ApplyTimers(live, StatePolled(s, snap, newTimer).cmds) <= Armed(StatePolled(s, snap, newTimer).state)
  {
    var r := StatePolled(s, snap, newTimer);
    if GameOver(s, snap) {
      if s.interval.Some? {
        assert ApplyTimers(live, r.cmds) == live - {s.interval.value};
      }
    } else {
      var rd := Read(s, snap);
      QuietKeepsTimers(live, rd.shown);
      if rd.complete && s.interval.None? {
        ApplyTimersAppend(live, rd.shown, [StartTimer(newTimer)]);
      }
    }
  }

  /** A failed poll stops the timer it drops from the slot. */
  lemma PollFailedKeepsTimersTracked(s: MatchState, status: int, body: string, newTimer: TimerId, live: set<TimerId>)
    requires live <= Armed(s)
    ensures ApplyTimers(live, StatePollFailed(s, status, body, newTimer).cmds)
            <= Armed(StatePollFailed(s, status, body, newTimer).state)
  {
    if !Leaving(s) {
      var c := CloseExisting(s, newTimer);
      if s.dialog.Some? {
        CloseKeepsTimersTracked(s, newTimer, live);
      }
      ApplyTimersAppend(live, c.cmds, StopCmds(c.state.interval));
    }
  }

  /** Every event keeps the running poll timers within the one the scene
      knows of: a timer is armed only into an empty slot, and one that is
      dropped from the slot is stopped. */
  lemma HandleKeepsTimersTracked(s: MatchState, e: MatchEvent, newTimer: TimerId, live: set<TimerId>)
    requires live <= Armed(s)
    ensures ApplyTimers(live, Handle(s, e, newTimer).cmds) <= Armed(Handle(s, e, newTimer).state)
  {
    match e
    case KeyDown(k) =>
      KeyKeepsTimersTracked(s, k, newTimer, live);
    case StepsOk =>
      QuietKeepsTimers(live, StepsAccepted(s).cmds);
    case StepsFailed(status, body) =>
      if !Leaving(s) && s.dialog.Some? {
        CloseKeepsTimersTracked(s, newTimer, live);
      }
    case StateOk(snap) =>
      PolledKeepsTimersTracked(s, snap, newTimer, live);
    case StateFailed(status, body) =>
      PollFailedKeepsTimersTracked(s, status, body, newTimer, live);
  }
}
