/** The scene manager: which scene is shown, the player and room the client
    has joined, and the poll timers running in the browser. Scenes change by
    halting the old scene before initialising the new one; while a scene shows
    a dialog every key goes to it. */
module Scenes {
  import opened Basics
  import opened Ui
  import opened Dialogs
  import opened Effects
  import opened TronGame

  /** The parts of a listed room the client uses. */
  datatype RoomInfo = RoomInfo(id: Id)

  /** A player as listed in a room. */
  datatype PlayerInfo = PlayerInfo(name: string, ready: bool)

  datatype Scene =
    | Initial(dialog: Option<OpenDialog>)
    | RoomListScene(list: RoomList<RoomInfo>, dialog: Option<OpenDialog>)
    | RoomDetail(players: seq<PlayerInfo>, buttons: Buttons, dialog: Option<OpenDialog>, interval: Option<TimerId>)
    | Match(game: MatchState)

  /** `live` is the set of poll timers running in the browser. `epoch`
      counts the scene changes so far: it tells the current scene from the
      halted ones whose requests may still be answered. */
  datatype Manager = Manager(scene: Scene, playerId: Option<Id>, roomId: Option<Id>, live: set<TimerId>, epoch: nat)

  /** The manager's new state and the commands issued on the way. */
  datatype Outcome = Outcome(manager: Manager, cmds: seq<Cmd>)

  /** The poll timer the current scene holds, if any. */
  function SceneTimers(s: Scene): set<TimerId> {
    match s
    case RoomDetail(_, _, _, interval) => if interval.Some? then {interval.value} else {}
    case Match(g) => Armed(g)
    case _ => {}
  }

  /** No timer runs that the current scene does not hold: every running poll
      can still be stopped by halting the scene. */
  predicate NoLeak(m: Manager) {
    m.live <= SceneTimers(m.scene)
  }

  /** The room-detail buttons, the room master's five. */
  function DetailButtons(): (b: Buttons)
    ensures ButtonsValid(b) && |b.buttons| == 5 && b.selectedButton == 0
    ensures b.buttons[0].text == "Start Game" && b.buttons[1].text == "Leave Room"
    ensures b.buttons[2].text == "Set Ready" && b.buttons[3].text == "Set Computer Count"
    ensures b.buttons[4].text == "Set Password"
  {
    var b1 := AddButton(NewButtons(), "Start Game");
    var b2 := AddButton(b1, "Leave Room");
    var b3 := AddButton(b2, "Set Ready");
    var b4 := AddButton(b3, "Set Computer Count");
    AddButton(b4, "Set Password")
  }

  /** The client starts on the name form, knowing no player or room. */
  function Start(): (m: Manager)
    ensures m.scene.Initial? && m.scene.dialog == Some(FormDialog(NameForm))
    ensures m.playerId.None? && m.roomId.None? && NoLeak(m)
  {
    Manager(Initial(Some(FormDialog(NameForm))), None, None, {}, 0)
  }

  // ------------------------------------------------------------ scene changes

  datatype Target = ToRoomList | ToRoomDetail | ToMatch

  /** Halting a scene stops the poll timer it holds (the handle is not cleared,
      but the scene is discarded). */
  function HaltCmds(s: Scene): (cmds: seq<Cmd>)
    ensures forall c :: c in cmds ==> c.StopTimer? && c.timer in SceneTimers(s)
    ensures forall t :: t in SceneTimers(s) ==> StopTimer(t) in cmds
  {
    match s
    case RoomDetail(_, _, _, interval) => StopCmds(interval)
    case Match(g) => StopCmds(g.interval)
    case _ => []
  }

  /** A new scene as constructed and initialised, with the requests it sends.
      The room scene asks for the room before it is initialised; the match
      scene asks for the game state. */
  function Construct(t: Target, playerId: Option<Id>, roomId: Option<Id>): (r: (Scene, seq<Cmd>))
    ensures Quiet(r.1) && SceneTimers(r.0) == {}
    ensures t == ToRoomList ==> r.0 == RoomListScene(NewRoomList(), None) && r.1 == [Send(FetchRoomList)]
    ensures t == ToRoomDetail ==> r.0 == RoomDetail([], DetailButtons(), None, None) && r.1 == [Send(FetchRoom(roomId))]
    ensures t == ToMatch ==> r.0 == Match(TronGame.Init(playerId).state) && r.1 == TronGame.Init(playerId).cmds
  {
    match t
    case ToRoomList => (RoomListScene(NewRoomList(), None), [Send(FetchRoomList)])
    case ToRoomDetail => (RoomDetail([], DetailButtons(), None, None), [Send(FetchRoom(roomId))])
    case ToMatch =>
      var i := TronGame.Init(playerId);
      (Match(i.state), i.cmds)
  }

  /** Replaces the scene: the old scene is halted first (its poll timer
      stopped), then the new one is initialised. */
  function ChangeScene(m: Manager, t: Target): (r: Outcome)
    ensures r.cmds == HaltCmds(m.scene) + Construct(t, m.playerId, m.roomId).1
    ensures r.manager.scene == Construct(t, m.playerId, m.roomId).0
    ensures r.manager.playerId == m.playerId && r.manager.roomId == m.roomId
    ensures r.manager.epoch == m.epoch + 1
    ensures r.manager.live == m.live - SceneTimers(m.scene)
    ensures NoLeak(m) ==> r.manager.live == {} && NoLeak(r.manager)
  {
    var (scene, init) := Construct(t, m.playerId, m.roomId);
    var cmds := HaltCmds(m.scene) + init;
    ApplyTimersAppend(m.live, HaltCmds(m.scene), init);
    QuietKeepsTimers(ApplyTimers(m.live, HaltCmds(m.scene)), init);
    StopsRemove(m.live, m.scene);
    Outcome(Manager(scene, m.playerId, m.roomId, ApplyTimers(m.live, cmds), m.epoch + 1), cmds)
  }

  lemma StopsRemove(live: set<TimerId>, s: Scene)
    ensures ApplyTimers(live, HaltCmds(s)) == live - SceneTimers(s)
  {
    match s
    case RoomDetail(_, _, _, interval) =>
    case Match(g) =>
    case _ =>
  }

  // --------------------------------------------------------------- key routing

  /** The scene after its dialog reacted by staying open or closing (every
      dialog outside the match removes itself on closing). */
  function WithDialog(s: Scene, d: Option<OpenDialog>): (r: Scene)
    requires !s.Match?
    ensures !r.Match? && r.dialog == d
  {
    match s
    case Initial(_) => Initial(d)
    case RoomListScene(l, _) => RoomListScene(l, d)
    case RoomDetail(p, b, _, i) => RoomDetail(p, b, d, i)
  }

  /** A key for the open dialog of a scene other than the match. An edit
      keeps the dialog open and a close removes it. Submissions are the name
      form's, which asks to create a player under the typed name, and the join
      form's, which asks to join the highlighted room with the typed pin's
      player (with no room listed the client throws and nothing happens). The
      manager is never changed beyond the scene's dialog. */
  function DialogKeyOutside(m: Manager, k: Key): (r: Outcome)
    requires !m.scene.Match? && m.scene.dialog.Some?
    ensures r.manager == m.(scene := r.manager.scene) && Quiet(r.cmds) && !r.manager.scene.Match?
    ensures WithDialog(r.manager.scene, None) == WithDialog(m.scene, None)
    ensures var p := Press(m.scene.dialog.value, k);
            && (p.Stay? ==> r == Outcome(m.(scene := WithDialog(m.scene, Some(p.dialog))), []))
            && (p.Close? ==> r == Outcome(m.(scene := WithDialog(m.scene, None)), []))
            && (p.Submit? ==> r.manager == m)
            && (p.Submit? && m.scene.dialog.value.purpose.NameForm? ==> r.cmds == [Send(CreatePlayer(p.value))])
            && (p.Submit? && m.scene.dialog.value.purpose.JoinForm? && m.scene.RoomListScene?
                && SelectedRoom(m.scene.list).Some? ==>
                  r.cmds == [Send(JoinRoom(SelectedRoom(m.scene.list).value.id, m.playerId))])
    ensures r.cmds != [] ==> k.code == Enter && Press(m.scene.dialog.value, k).Submit?
  {
    var d := m.scene.dialog.value;
    match Press(d, k)
    case Stay(d') => Outcome(m.(scene := WithDialog(m.scene, Some(d'))), [])
    case Close => Outcome(m.(scene := WithDialog(m.scene, None)), [])
    case Submit(v) =>
      if d.purpose.NameForm? then Outcome(m, [Send(CreatePlayer(v))])
      else if d.purpose.JoinForm? && m.scene.RoomListScene? && SelectedRoom(m.scene.list).Some? then
        Outcome(m, [Send(JoinRoom(SelectedRoom(m.scene.list).value.id, m.playerId))])
      else Outcome(m, [])
  }

  /** The room list's keys: up/W and down/S move the highlight, R reloads the
      list, Enter opens the join form and C creates a room. */
  function RoomListKey(m: Manager, k: Key): (r: Outcome)
    requires m.scene.RoomListScene? && m.scene.dialog.None?
    ensures r.manager == m.(scene := r.manager.scene) && Quiet(r.cmds)
    ensures k.code == Enter ==> r.manager.scene == WithDialog(m.scene, Some(FormDialog(JoinForm)))
    ensures k.code == ArrowUp || k.code == 87 ==> r.manager.scene == m.scene.(list := SelectPreviousRoom(m.scene.list))
    ensures k.code == ArrowDown || k.code == 83 ==> r.manager.scene == m.scene.(list := SelectNextRoom(m.scene.list))
    ensures k.code == 82 ==> r == Outcome(m, [Send(FetchRoomList)])
    ensures k.code == 67 ==> r == Outcome(m, [Send(CreateRoom(m.playerId))])
  {
    var l := m.scene.list;
    if k.code == ArrowUp || k.code == 87 then Outcome(m.(scene := m.scene.(list := SelectPreviousRoom(l))), [])
    else if k.code == ArrowDown || k.code == 83 then Outcome(m.(scene := m.scene.(list := SelectNextRoom(l))), [])
    else if k.code == 82 then Outcome(m, [Send(FetchRoomList)])
    else if k.code == Enter then Outcome(m.(scene := WithDialog(m.scene, Some(FormDialog(JoinForm)))), [])
    else if k.code == 67 then Outcome(m, [Send(CreateRoom(m.playerId))])
    else Outcome(m, [])
  }

  /** The request or form behind each room-detail button: Start Game asks to
      start the room, Leave Room to leave it, Set Ready to flip the player's
      ready flag, and the last two open the computer-count and password forms
      over an otherwise unchanged room scene. */
  function PushDetailButton(m: Manager, b: int): (r: Outcome)
    requires m.scene.RoomDetail?
    ensures r.manager == m.(scene := r.manager.scene) && Quiet(r.cmds)
    ensures b == 0 ==> r == Outcome(m, [Send(StartGame(m.roomId))])
    ensures b == 1 ==> r == Outcome(m, [Send(LeaveRoom(m.roomId, m.playerId))])
    ensures b == 2 ==> r == Outcome(m, [Send(SetReady(m.playerId))])
    ensures b == 3 ==> r.cmds == [] && r.manager.scene == m.scene.(dialog := Some(FormDialog(ComputerCountForm)))
    ensures b == 4 ==> r.cmds == [] && r.manager.scene == m.scene.(dialog := Some(FormDialog(PasswordForm)))
    ensures !(0 <= b <= 4) ==> r == Outcome(m, [])
  {
    if b == 0 then Outcome(m, [Send(StartGame(m.roomId))])
    else if b == 1 then Outcome(m, [Send(LeaveRoom(m.roomId, m.playerId))])
    else if b == 2 then Outcome(m, [Send(SetReady(m.playerId))])
    else if b == 3 then Outcome(m.(scene := WithDialog(m.scene, Some(FormDialog(ComputerCountForm)))), [])
    else if b == 4 then Outcome(m.(scene := WithDialog(m.scene, Some(FormDialog(PasswordForm)))), [])
    else Outcome(m, [])
  }

  /** The room's keys: Enter pushes the highlighted button, up and down move
      the highlight (no WASD here). */
  function RoomDetailKey(m: Manager, k: Key): (r: Outcome)
    requires m.scene.RoomDetail? && m.scene.dialog.None?
    ensures r.manager == m.(scene := r.manager.scene) && Quiet(r.cmds)
    ensures k.code == ArrowUp ==> r.manager.scene == m.scene.(buttons := SelectPreviousButton(m.scene.buttons))
    ensures k.code == ArrowDown ==> r.manager.scene == m.scene.(buttons := SelectNextButton(m.scene.buttons))
    ensures k.code == Enter ==> r == PushDetailButton(m, m.scene.buttons.selectedButton)
  {
    if k.code == Enter then PushDetailButton(m, m.scene.buttons.selectedButton)
    else if k.code == ArrowUp then Outcome(m.(scene := m.scene.(buttons := SelectPreviousButton(m.scene.buttons))), [])
    else if k.code == ArrowDown then Outcome(m.(scene := m.scene.(buttons := SelectNextButton(m.scene.buttons))), [])
    else Outcome(m, [])
  }

  /** Applies a match-scene step: the scene's state and timers are updated,
      and a request to leave forgets the room and changes to the room list,
      halting the match (which stops its poll) and fetching the rooms. */
  function ApplyMatch(m: Manager, st: TronGame.Step): (r: Outcome)
    ensures LeaveToRoomList !in st.cmds ==>
              r.manager == m.(scene := Match(st.state), live := ApplyTimers(m.live, st.cmds))
              && r.cmds == st.cmds
    ensures LeaveToRoomList in st.cmds ==>
              && r.manager.scene == RoomListScene(NewRoomList(), None)
              && r.manager.roomId.None? && r.manager.playerId == m.playerId
              && r.manager.epoch == m.epoch + 1
              && r.manager.live == ApplyTimers(m.live, st.cmds) - Armed(st.state)
              && r.cmds == st.cmds + StopCmds(st.state.interval) + [Send(FetchRoomList)]
  {
    var m1 := m.(scene := Match(st.state), live := ApplyTimers(m.live, st.cmds));
    if LeaveToRoomList in st.cmds then
      var c := ChangeScene(m1.(roomId := None), ToRoomList);
      Outcome(c.manager, st.cmds + c.cmds)
    else Outcome(m1, st.cmds)
  }

  /** A key press, routed to the current scene; with a dialog open every key
      goes to the dialog. The initial scene reacts to nothing else. Outside
      the match a key never changes the scene's kind, the player, the room or
      the running timers: it edits the scene or sends requests. */
  function KeyDown(m: Manager, k: Key, newTimer: TimerId): (r: Outcome)
    ensures m.scene.Match? ==> r == ApplyMatch(m, TronGame.OnKey(m.scene.game, k, newTimer))
    ensures !m.scene.Match? ==>
              && r.manager == m.(scene := r.manager.scene) && Quiet(r.cmds)
              && r.manager.scene.Initial? == m.scene.Initial?
              && r.manager.scene.RoomListScene? == m.scene.RoomListScene?
              && r.manager.scene.RoomDetail? == m.scene.RoomDetail?
    ensures !m.scene.Match? && m.scene.dialog.Some? ==> r == DialogKeyOutside(m, k)
    ensures m.scene.RoomListScene? && m.scene.dialog.None? ==> r == RoomListKey(m, k)
    ensures m.scene.RoomDetail? && m.scene.dialog.None? ==> r == RoomDetailKey(m, k)
    ensures m.scene.Initial? && m.scene.dialog.None? ==> r == Outcome(m, [])
  {
    if m.scene.Match? then ApplyMatch(m, TronGame.OnKey(m.scene.game, k, newTimer))
    else if m.scene.dialog.Some? then DialogKeyOutside(m, k)
    else if m.scene.RoomListScene? then RoomListKey(m, k)
    else if m.scene.RoomDetail? then RoomDetailKey(m, k)
    else Outcome(m, [])
  }

  /** While a dialog is open outside the match, a key changes nothing but the
      dialog: the room list and the room's players and buttons stay as they
      were, and no scene change or request other than the dialog's own
      submission happens. */
  lemma DialogTakesAllKeys(m: Manager, k: Key, newTimer: TimerId)
    requires !m.scene.Match? && m.scene.dialog.Some?
    ensures var r := KeyDown(m, k, newTimer);
            && WithDialog(r.manager.scene, None) == WithDialog(m.scene, None)
            && r.manager.playerId == m.playerId && r.manager.roomId == m.roomId
            && r.manager.live == m.live
  {
  }

  /** The match scene's counterpart: with its dialog open, a key leaves the
      queue, token, turn and colours alone and sends nothing. */
  lemma MatchDialogTakesAllKeys(m: Manager, k: Key, newTimer: TimerId)
    requires m.scene.Match? && m.scene.game.dialog.Some?
    ensures var st := TronGame.OnKey(m.scene.game, k, newTimer);
            && st.state.pending == m.scene.game.pending && st.state.player == m.scene.game.player
            && st.state.activePlayer == m.scene.game.activePlayer && st.state.colors == m.scene.game.colors
            && forall c :: c in st.cmds ==> !c.Send? && !c.MarkPending?
  {
  }

  // -------------------------------------------------------- server responses

  /** The shared error handler of the scenes outside the match: the open
      dialog is closed (which removes it) and an error notice that removes
      itself on closing is shown. Nothing else changes. */
  function GenericError(m: Manager, status: int, body: string): (r: Outcome)
    requires !m.scene.Match?
    ensures r.cmds == [] && r.manager == m.(scene := r.manager.scene) && !r.manager.scene.Match?
    ensures r.manager.scene.dialog == Some(ErrorDialog(ErrorText(status, body), Remove))
    ensures WithDialog(r.manager.scene, None) == WithDialog(m.scene, None)
  {
    Outcome(m.(scene := WithDialog(m.scene, Some(ErrorDialog(ErrorText(status, body), Remove)))), [])
  }

  /** A polled room, as the client should handle it: the player list is
      replaced; a ready room switches to the match; otherwise the room poll is
      armed unless it runs already. */
  function RoomPolled(m: Manager, players: seq<PlayerInfo>, ready: bool, newTimer: TimerId): (r: Outcome)
    requires m.scene.RoomDetail?
    ensures ready ==> r.manager.scene == Match(TronGame.Init(m.playerId).state)
    ensures !ready ==> r.manager.scene.RoomDetail? && r.manager.scene.players == players
    ensures !ready && m.scene.interval.Some? ==> r == Outcome(m.(scene := m.scene.(players := players)), [])
    ensures !ready && m.scene.interval.None? ==>
              r.manager.scene.interval == Some(newTimer) && r.cmds == [StartTimer(newTimer)]
    ensures NoLeak(m) ==> NoLeak(r.manager)
  {
    var m1 := m.(scene := m.scene.(players := players));
    if ready then ChangeScene(m1, ToMatch)
    else if m1.scene.interval.None? then
      Outcome(m1.(scene := m1.scene.(interval := Some(newTimer)), live := m1.live + {newTimer}), [StartTimer(newTimer)])
    else Outcome(m1, [])
  }

  /** A polled room, as the client handles it: after switching to the match
      for a ready room, the handler still arms the room poll when none was
      armed yet, on the room scene that has just been halted. */
  function RoomPolledAsWritten(m: Manager, players: seq<PlayerInfo>, ready: bool, newTimer: TimerId): (r: Outcome)
    requires m.scene.RoomDetail?
    ensures !ready ==> r == RoomPolled(m, players, ready, newTimer)
    ensures ready && m.scene.interval.None? ==>
              newTimer in r.manager.live && r.manager.scene == Match(TronGame.Init(m.playerId).state)
  {
    var m1 := m.(scene := m.scene.(players := players));
    if ready then
      var c := ChangeScene(m1, ToMatch);
      if m1.scene.interval.None? then
        Outcome(c.manager.(live := c.manager.live + {newTimer}), c.cmds + [StartTimer(newTimer)])
      else c
    else RoomPolled(m, players, ready, newTimer)
  }

  /** The first poll of a room that is already ready leaves a room poll running
      that no scene holds: the match scene has no timer, and the halted room
      scene can no longer stop it. */
  lemma RoomPollLeaksTimer()
    ensures var m := Manager(RoomDetail([], DetailButtons(), None, None), Some("p"), Some("r"), {}, 0);
            && NoLeak(m)
            && !NoLeak(RoomPolledAsWritten(m, [], true, 7).manager)
  {
    var m := Manager(RoomDetail([], DetailButtons(), None, None), Some("p"), Some("r"), {}, 0);
    var r := RoomPolledAsWritten(m, [], true, 7);
    assert SceneTimers(r.manager.scene) == {};
    assert 7 in r.manager.live;
  }

  /** A room poll answered after its room scene was halted, as the client
      handles it: for a ready room the handler throws when it reaches the
      halted scene's manager, and otherwise it arms a room poll for the halted
      scene unless that scene had armed one before it was halted. */
  function StaleRoomPolledAsWritten(m: Manager, halted: Scene, ready: bool, newTimer: TimerId): (r: Outcome)
    requires halted.RoomDetail?
    ensures r.manager.scene == m.scene && r.manager.epoch == m.epoch
    ensures ready || halted.interval.Some? ==> r == Outcome(m, [])
    ensures !ready && halted.interval.None? ==>
              r.manager.live == m.live + {newTimer} && r.cmds == [StartTimer(newTimer)]
  {
    if !ready && halted.interval.None? then Outcome(m.(live := m.live + {newTimer}), [StartTimer(newTimer)])
    else Outcome(m, [])
  }

  /** Leaving a room before its first poll is answered leaves a room poll
      running that no scene holds; dropping the stale answer, as `Handle`
      does, keeps the running timers as they were. */
  lemma StaleRoomPollLeaksTimer()
    ensures var m := Manager(RoomListScene(NewRoomList(), None), Some("p"), Some("r"), {}, 2);
            var halted := RoomDetail([], DetailButtons(), None, None);
            && NoLeak(m)
            && !NoLeak(StaleRoomPolledAsWritten(m, halted, false, 7).manager)
            && Handle(m, Reply(1, RoomLoaded([], false)), 7) == Outcome(m, [])
  {
    var m := Manager(RoomListScene(NewRoomList(), None), Some("p"), Some("r"), {}, 2);
    var halted := RoomDetail([], DetailButtons(), None, None);
    assert 7 in StaleRoomPolledAsWritten(m, halted, false, 7).manager.live;
  }

  /** A server response, or an event of the match scene. */
  datatype Response =
    | PlayerCreated(id: Id)
    | RoomListLoaded(rooms: seq<RoomInfo>)
    | RoomJoined
    | RoomCreated(id: Id)
    | RoomLoaded(players: seq<PlayerInfo>, ready: bool)
    | GameStarted
    | RoomLeft
    | ReadySet
    | Failed(status: int, body: string)
    | ForMatch(event: MatchEvent)

  /** A key press, or a response tagged with the epoch of the scene whose
      request (or timer) it answers. */
  datatype Event =
    | Pressed(key: Key)
    | Reply(epoch: nat, response: Response)

  /** The manager's reaction to one event. A response for a scene that is no
      longer current, or that the current scene does not issue, is dropped.
      Otherwise: a created player is recorded and, while its name form is
      open, the room list follows; a loaded list replaces the rooms; a joined
      or created room is recorded and its scene follows; a polled room is
      handled by `RoomPolled`; a started game opens the match; a left room
      returns to the room list; a set ready flag polls the room; a failure
      opens an error notice; and match events go to the match. */
  function Handle(m: Manager, e: Event, newTimer: TimerId): (r: Outcome)
    ensures e.Pressed? ==> r == KeyDown(m, e.key, newTimer)
    ensures e.Reply? && e.epoch != m.epoch ==> r == Outcome(m, [])
    ensures e.Reply? && e.epoch == m.epoch ==>
              match e.response
              case PlayerCreated(id) =>
                && (m.scene.Initial? && m.scene.dialog.Some? ==>
                      r.manager.playerId == Some(id) && r.manager.scene == RoomListScene(NewRoomList(), None)
                      && r.cmds == [Send(FetchRoomList)])
                && (m.scene.Initial? && m.scene.dialog.None? ==> r == Outcome(m.(playerId := Some(id)), []))
                && (!m.scene.Initial? ==> r == Outcome(m, []))
              case RoomListLoaded(rooms) =>
                m.scene.RoomListScene? ==>
                  r == Outcome(m.(scene := m.scene.(list := UpdateRoomList(m.scene.list, rooms))), [])
              case RoomJoined =>
                m.scene.RoomListScene? && SelectedRoom(m.scene.list).Some? ==>
                  var id := SelectedRoom(m.scene.list).value.id;
                  && r.manager.roomId == Some(id) && r.manager.scene == RoomDetail([], DetailButtons(), None, None)
                  && r.cmds == [Send(FetchRoom(Some(id)))]
              case RoomCreated(id) =>
                m.scene.RoomListScene? ==>
                  && r.manager.roomId == Some(id) && r.manager.scene == RoomDetail([], DetailButtons(), None, None)
                  && r.cmds == [Send(FetchRoom(Some(id)))]
              case RoomLoaded(players, ready) =>
                m.scene.RoomDetail? ==> r == RoomPolled(m, players, ready, newTimer)
              case GameStarted =>
                m.scene.RoomDetail? ==>
                  && r.manager.scene == Match(TronGame.Init(m.playerId).state) && r.manager.roomId == m.roomId
                  && r.cmds == StopCmds(m.scene.interval) + [Send(FetchState(m.playerId))]
              case RoomLeft =>
                m.scene.RoomDetail? ==>
                  && r.manager.scene == RoomListScene(NewRoomList(), None)
                  && r.cmds == StopCmds(m.scene.interval) + [Send(FetchRoomList)]
              case ReadySet =>
                m.scene.RoomDetail? ==> r == Outcome(m, [Send(FetchRoom(m.roomId))])
              case Failed(status, body) =>
                !m.scene.Match? ==> r == GenericError(m, status, body)
              case ForMatch(me) =>
                m.scene.Match? ==> r == ApplyMatch(m, TronGame.Handle(m.scene.game, me, newTimer))
    ensures e.Reply? && (e.response.Failed? || e.response.RoomListLoaded? || e.response.ReadySet?) ==>
              r.manager.live == m.live && r.manager.epoch == m.epoch
  {
    match e
    case Pressed(k) => KeyDown(m, k, newTimer)
    case Reply(epoch, response) =>
      if epoch != m.epoch then Outcome(m, [])
      else Respond(m, response, newTimer)
  }

  /** The current scene's reaction to a response meant for it. */
  function Respond(m: Manager, response: Response, newTimer: TimerId): (r: Outcome)
  {
    match response
    case PlayerCreated(id) =>
      if !m.scene.Initial? then Outcome(m, [])
      else
        var m1 := m.(playerId := Some(id));
        if m1.scene.dialog.None? then Outcome(m1, [])
        else ChangeScene(m1.(scene := Initial(None)), ToRoomList)
    case RoomListLoaded(rooms) =>
      if !m.scene.RoomListScene? then Outcome(m, [])
      else Outcome(m.(scene := m.scene.(list := UpdateRoomList(m.scene.list, rooms))), [])
    case RoomJoined =>
      if !m.scene.RoomListScene? || SelectedRoom(m.scene.list).None? then Outcome(m, [])
      else ChangeScene(m.(roomId := Some(SelectedRoom(m.scene.list).value.id)), ToRoomDetail)
    case RoomCreated(id) =>
      if !m.scene.RoomListScene? then Outcome(m, [])
      else ChangeScene(m.(roomId := Some(id)), ToRoomDetail)
    case RoomLoaded(players, ready) =>
      if !m.scene.RoomDetail? then Outcome(m, [])
      else RoomPolled(m, players, ready, newTimer)
    case GameStarted =>
      if !m.scene.RoomDetail? then Outcome(m, []) else ChangeScene(m, ToMatch)
    case RoomLeft =>
      if !m.scene.RoomDetail? then Outcome(m, []) else ChangeScene(m, ToRoomList)
    case ReadySet =>
      if !m.scene.RoomDetail? then Outcome(m, []) else Outcome(m, [Send(FetchRoom(m.roomId))])
    case Failed(status, body) =>
      if m.scene.Match? then Outcome(m, []) else GenericError(m, status, body)
    case ForMatch(me) =>
      if !m.scene.Match? then Outcome(m, [])
      else ApplyMatch(m, TronGame.Handle(m.scene.game, me, newTimer))
  }

  /** A match step keeps every running timer within the match's own. */
  lemma ApplyMatchKeepsNoLeak(m: Manager, st: TronGame.Step)
    requires m.scene.Match? && NoLeak(m)
    requires m.live <= Armed(m.scene.game) ==> ApplyTimers(m.live, st.cmds) <= Armed(st.state)
    ensures NoLeak(ApplyMatch(m, st).manager)
  {
  }

  /** No event ever leaves a timer running that the current scene does not
      hold (with the room poll handled as the client should handle it, and
      stale responses dropped). */
  lemma HandleKeepsNoLeak(m: Manager, e: Event, newTimer: TimerId)
    requires NoLeak(m)
    ensures NoLeak(Handle(m, e, newTimer).manager)
  {
    match e
    case Pressed(k) =>
      if m.scene.Match? {
        var g := m.scene.game;
        TronGame.KeyKeepsTimersTracked(g, k, newTimer, m.live);
        ApplyMatchKeepsNoLeak(m, TronGame.OnKey(g, k, newTimer));
      } else {
        QuietKeepsTimers(m.live, Handle(m, e, newTimer).cmds);
      }
    case Reply(epoch, response) =>
      if epoch == m.epoch {
        RespondKeepsNoLeak(m, response, newTimer);
      }
  }

  lemma RespondKeepsNoLeak(m: Manager, response: Response, newTimer: TimerId)
    requires NoLeak(m)
    ensures NoLeak(Respond(m, response, newTimer).manager)
  {
    match response
    case ForMatch(me) =>
      if m.scene.Match? {
        TronGame.HandleKeepsTimersTracked(m.scene.game, me, newTimer, m.live);
        ApplyMatchKeepsNoLeak(m, TronGame.Handle(m.scene.game, me, newTimer));
      }
    case Failed(status, body) =>
      if !m.scene.Match? {
        assert SceneTimers(GenericError(m, status, body).manager.scene) == SceneTimers(m.scene);
      }
    case PlayerCreated(id) =>
    case RoomListLoaded(rooms) =>
    case RoomJoined =>
    case RoomCreated(id) =>
    case RoomLoaded(players, ready) =>
    case GameStarted =>
    case RoomLeft =>
    case ReadySet =>
  }
}
