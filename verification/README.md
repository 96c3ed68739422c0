# Labyritron client and server helpers — a Dafny model

Labyritron is a multiplayer Tron-style game on a 16 x 16 grid. This project
models the browser client's scene and dialog logic together with two small
server helpers:

- Players pick a name, then browse rooms, join or create one, and wait in the
  room until it is ready.
- In the match, a player queues moves with the arrow keys (or WASD) and
  submits them with Enter.
- The client polls the server for the game state every five seconds. From each
  poll it derives the ranked list of players, each player's colour, the trails
  behind the tokens and a notice when the turn changes hands.

The model is functional. Every scene is an immutable value, and every handler
returns the new value together with the effects the handler asks for, as a
list of commands:

- server requests;
- arming and stopping poll timers;
- drawing.

The scene manager keeps the set of poll timers that are still running. The
invariant `NoLeak` says that every running timer is held by the current
scene, so halting the scene stops it.

Modules:

- `Basics`: options, positions, key codes, the error text of a failed request.
- `Directions`: the four directions, their codes, opposites and unit moves.
- `Board`: the client's tile grid and its point updates.
- `Ui`: the widgets, which are
  - the room list (clamped selection, five-row visible window);
  - the button manager (selection wraps forward, clamps backward);
  - dialog options (character filtering, length limits, deletion);
  - dialogs and key routing;
  - first-occurrence removal from element lists.
- `Dialogs`: the dialogs the scenes open, their OK/Cancel callbacks and close
  callbacks.
- `PlayerOrder`: the identifier rearrangement used as sort key, the
  lexicographic order, the stable insertion sort of player tokens, the colour
  table frozen at the first poll.
- `Trail`: the trail segments and facing drawn from a player's position
  history.
- `Reconcile`: splitting polled tiles into tokens and lines, the live position
  of the local token, turn notices, and the drawing of players in rank order.
- `Effects`: requests and commands, and the fold that tracks running timers.
- `TronGame`: the match scene (move queue, submission, state poll, error and
  game-over handling, timers).
- `Scenes`: the scene manager, scene changes, key routing to dialogs, the room
  poll, and the manager's event handler.
- `ServerMap`: the server's clamped neighbour table.
- `ServerRoom`: the server's room record.

## Model

| member | source | states |
|---|---|---|
| Basics.ErrorText | client/js/control.js:17-32 | A failed request with status 0 reports "Could not connect to the server". Any other status reports the response body. |
| Directions.Code | client/js/graphics.js:3-8 | Up has code 1, Left 2, Right 3 and Down 4, and no direction shares another's code. |
| Directions.FromCode | client/js/graphics.js:3-8 | A code names a direction exactly when it lies between 1 and 4, and then it names the direction with that code. |
| Directions.CodeRoundTrip | client/js/graphics.js:3-8 | Decoding a direction's code gives the direction back, and distinct directions have distinct codes. |
| Directions.NegateInverse | client/js/control.js:215 | Negating twice gives the direction back, and moving one way and then the opposite way returns to the start. |
| Directions.MoveIsUnitStep | client/js/control.js:286-303 | A move changes exactly one coordinate by exactly one. |
| Board.NewBoard | client/js/graphics.js:320-334 | A new board has the given width and height, and every tile is empty. |
| Board.AddPendingMove | client/js/graphics.js:336-338 | The addressed tile becomes a pending mark at that cell in the given colour. Every other tile is unchanged. |
| Board.AddPlayer | client/js/graphics.js:340-342 | The addressed tile becomes a token at that cell. Every other tile is unchanged. |
| Board.SetPlayerDirection | client/js/graphics.js:344-346 | Turning succeeds exactly when the addressed tile is on the board and holds a token. The token then faces the given direction, and every other tile is unchanged. An empty tile, a pending mark or an off-board tile makes the call throw. |
| Board.TurnAfterPlace | client/js/graphics.js:336-346 | A token just placed can be turned, and the result is that token facing the new direction. A pending mark just placed cannot be turned. |
| Board.PutOverwritesAndCommutes | client/js/graphics.js:336-346 | Of two writes to the same tile, the later one wins. Writes to different tiles commute. |
| Ui.NewRoomList | client/js/graphics.js:429-435 | A new room list is empty and valid. |
| Ui.SelectRoom | client/js/graphics.js:453-465 | An index outside the list changes nothing. Otherwise the index becomes selected and exactly that entry is flagged, and the rooms are kept. |
| Ui.RoomNavigationClamps | client/js/graphics.js:467-473 | Previous and next move the selection by one but stop at the first and last room. |
| Ui.UpdateRoomList | client/js/graphics.js:475-486 | The new list holds the given rooms in order, numbered from 0. Room 0 is selected when there is any. |
| Ui.SelectedRoom | client/js/graphics.js:449-451 | There is a selected room exactly when the selection index lies in the list, and it is the flagged entry. |
| Ui.VisibleWindow | client/js/graphics.js:382-385 | A room is drawn exactly when its number lies between the selection and four past it, so the selected room is always drawn. |
| Ui.NewButtons | client/js/graphics.js:606-611 | A new button manager has no buttons. |
| Ui.AddButton | client/js/graphics.js:613-621 | The button is appended with the given text. It is flagged selected only when it is the first button, and the selection index is kept. |
| Ui.SelectButton | client/js/graphics.js:627-639 | A negative index changes nothing. An index past the end wraps to button 0. Exactly the chosen button ends up flagged. |
| Ui.ButtonNavigation | client/js/graphics.js:641-647 | Next advances modulo the button count. Previous stops at the first button. |
| Ui.ButtonsDeterminedBySelection | client/js/graphics.js:613-639 | Two valid managers with the same texts and the same selection index are equal. |
| Ui.NextTimesAdvances | client/js/graphics.js:645-647 | Pressing next k times, for any k, selects button (start + k) modulo the button count and keeps the texts. |
| Ui.NextButtonCycles | client/js/graphics.js:645-647 | Pressing next once per button returns the manager to its starting state. |
| Ui.KeyChar | client/js/graphics.js:502-526 | A key yields a character exactly for a digit or a letter. A digit yields itself. A letter yields its lower-case character without shift and its upper-case one with shift. |
| Ui.AddCharacter | client/js/graphics.js:502-526 | A character is appended exactly when the value is below its length limit and the option kind admits the character. Nothing but the value changes. |
| Ui.RemoveCharacter | client/js/graphics.js:528-534 | The last character is dropped, and an empty value is left alone. |
| Ui.RemoveUndoesAdd | client/js/graphics.js:502-534 | Deleting right after a character was added restores the option. |
| Ui.NewDialog | client/js/graphics.js:654-674 | A new dialog has no options, an OK button first, and a Cancel button only when asked. OK is selected. |
| Ui.AddOption | client/js/graphics.js:676-684 | An empty option of the given kind and limit is appended. Buttons and the selection are kept. |
| Ui.SelectOption | client/js/graphics.js:740-760 | An index outside the options changes nothing. Otherwise exactly that option becomes flagged, and nothing else about the options changes. |
| Ui.EditSelected | client/js/graphics.js:718-738 | Only the selected option's value is edited, by deletion or by the typed key. The other options, the buttons and the selection are kept. |
| Ui.DialogKey | client/js/graphics.js:718-738 | Enter, and only Enter, pushes the selected button, and Escape, and only Escape, asks to close. Up and Down move the option highlight, Left selects the previous button, and Right and Tab the next. Backspace deletes from the selected option, and every other key types into it. |
| Ui.IndexOf | client/js/graphics.js:926-932 | The result is the index of the first occurrence, or -1 exactly when the item is absent. |
| Ui.RemoveFirst | client/js/graphics.js:926-932 | An absent item changes nothing. Otherwise exactly one occurrence is removed, so the multiset loses exactly that item. |
| Ui.RemoveFirstRestores | client/js/graphics.js:819-825 | Removal deletes the first occurrence and keeps everything else in order. |
| Dialogs.ErrorDialog | client/js/graphics.js:871-880 | An error notice has the text, no options and a single OK button. |
| Dialogs.FormDialog | client/js/control.js:358-380 | A form has one empty option with the form's kind and limit. It has a Cancel button unless it is the name form, and it removes itself on closing. |
| Dialogs.PushButton | client/js/control.js:361-375 | On a form, OK stays put while the value is shorter than the form's minimum. Past that, the name and join forms submit the typed value, and the computer-count and password forms close. Cancel closes every form that has it. On a notice, OK closes. |
| Dialogs.Press | client/js/graphics.js:718-738 | Escape closes the dialog and Enter pushes the selected button. Any other key keeps the dialog open, edited as the widget edits it, with the same purpose and close callback, and keeps it well formed. |
| Dialogs.SubmitRespectsForm | client/js/control.js:520-525 | A submission comes only from Enter on OK. The submitted value is at least the form's minimum length and is the option's typed value. |
| Dialogs.NoticeOnlyCloses | client/js/graphics.js:871-880 | A notice never submits, and Enter or Escape closes it. |
| PlayerOrder.Split | client/js/control.js:169-173 | Splitting at '-' gives at least one part, and no part holds a '-'. |
| PlayerOrder.JoinSplit | client/js/control.js:169-173 | Joining the parts with '-' gives back the original identifier. |
| PlayerOrder.SplitJoin | client/js/control.js:169-173 | Splitting a join of dash-free parts gives the parts back. |
| PlayerOrder.RearrangeUuid | client/js/control.js:169-173 | For an identifier with three or more groups, the sort key is group 3, then group 2, then group 1, concatenated. |
| PlayerOrder.RearrangePlainId | client/js/control.js:169-173 | An identifier without a dash is its own sort key. |
| PlayerOrder.LessTransitive | client/js/control.js:175-184 | The string order used by the comparator is transitive. |
| PlayerOrder.LessTotal | client/js/control.js:175-184 | Any two distinct strings are ordered one way or the other. |
| PlayerOrder.Insert | client/js/control.js:175-184 | Insertion adds exactly the one tile. |
| PlayerOrder.InsertSorted | client/js/control.js:175-184 | Inserting into a sorted list keeps it sorted. |
| PlayerOrder.SortTiles | client/js/control.js:175-184 | The sorted tokens are a permutation of the input, ordered by sort key. |
| PlayerOrder.StrictlySortedUnique | client/js/control.js:175-184 | Two strictly sorted permutations of the same tiles are equal. |
| PlayerOrder.RankingIgnoresArrivalOrder | client/js/control.js:175-184 | When the sort keys are distinct, the ranking does not depend on the order in which the tiles arrived, and it is strictly increasing. |
| PlayerOrder.Ranks | client/js/control.js:186-191 | Every token's identifier maps to a rank, which is the position of a token with that identifier. |
| PlayerOrder.RanksAreIndices | client/js/control.js:186-191 | With distinct keys, each token's colour is its own position in the ranking. |
| PlayerOrder.FreezeColors | client/js/control.js:186-191 | Existing colours are kept. An empty table is filled with each ranked identifier's position. |
| PlayerOrder.ColorsFreeze | client/js/control.js:186-191 | Once a poll with players has set the colours, later polls never change them. |
| Trail.StepDirection | client/js/control.js:193-223 | The direction from one cell to the next is Right or Left by the x comparison. With equal x it is Up or Down by the y comparison. Equal cells give no direction. |
| Trail.StepDirectionInvertsMove | client/js/control.js:193-223 | The step direction of a move is the move's direction, and any unit step is a move in its step direction. |
| Trail.SegmentAt | client/js/control.js:193-223 | Segment j sits at history entry j, shifted to 0-based. It runs from the opposite of the incoming direction to the direction of the next step. |
| Trail.FacingOf | client/js/control.js:193-223 | There is a facing exactly when the history has two or more entries. It sits at the last entry, made 0-based. It has a direction exactly when the last two entries differ, and after a unit step that direction is the one moved. |
| Trail.TrailOf | client/js/control.js:193-223 | A history of n cells (n at least 2) gives n - 1 segments and a facing. A shorter history gives neither. |
| Trail.FacingMatchesLastSegment | client/js/control.js:193-223 | The token faces the direction the last segment leads to. |
| Trail.PathSteps | client/js/control.js:193-223 | Each cell of a walked path is a move from the previous cell. |
| Trail.TrailRecoversMoves | client/js/control.js:193-223 | The trail of a walked path recovers every move of the walk: segment j leads to move j, comes from the opposite of move j - 1, and the facing is the last move. |
| Reconcile.Classify | client/js/control.js:142-152 | Every token is an owned, unoccupied tile and every line an owned, occupied tile. Together the lists hold no more tiles than the poll. |
| Reconcile.ClassifyPartitions | client/js/control.js:142-152 | Every owned tile lands in exactly one of tokens and lines, chosen by its occupied flag. Every listed tile comes from the poll. |
| Reconcile.ClassifyCons | client/js/control.js:142-152 | A tile in front goes in front of the token list when it is owned and unoccupied, in front of the line list when it is owned and occupied, and is skipped otherwise. |
| Reconcile.ClassifyAppend | client/js/control.js:142-152 | Classifying two parts of a poll one after the other gives the concatenated lists, so both lists keep the poll order. |
| Reconcile.Tokens | client/js/control.js:142-152 | Each token record carries the tile's coordinates and owner, in poll order. |
| Reconcile.TokensAppend | client/js/control.js:142-152 | The token records of a concatenated poll are those of the first part followed by those of the second. |
| Reconcile.FindToken | client/js/control.js:162-166 | The result is the first token owned by the identifier, and there is one exactly when such a token exists. |
| Reconcile.LivePosition | client/js/control.js:162-166 | The local token's position is taken from the poll when present. Otherwise the previous position is kept. |
| Reconcile.TurnNotice | client/js/control.js:154-160 | "Your turn" is shown exactly when the turn moves to the local player. "Others' turn" is shown exactly when the turn moves away from someone other than the local player to someone else. Otherwise there is no notice. |
| Reconcile.TurnNoticeOnChangeOnly | client/js/control.js:154-160 | No notice is shown while the same player keeps the turn. |
| Reconcile.ColorOf | client/js/control.js:186-223 | A player's colour is looked up in the frozen table, and is absent exactly when the table lacks the player. |
| Reconcile.PlaceTokens | client/js/graphics.js:340-342 | Placing the first n ranked tokens keeps the grid's shape. |
| Reconcile.PlacedTokens | client/js/graphics.js:340-342 | On a fresh grid with the first n ranked tokens placed, a cell holds something exactly when one of those tokens stands on it, and then it holds a token. |
| Reconcile.TurnableOnBoard | client/js/graphics.js:344-346 | With ranked players 0 to i placed, turning the cell of player i's last history entry succeeds exactly when Turnable holds, so the drawing's stop condition is the grid's own. |
| Reconcile.DrawFrom | client/js/control.js:193-223 | From ranked player i on, the drawing is complete exactly when every remaining player can be drawn. It then holds one drawing per remaining player, and otherwise at least one. |
| Reconcile.DrawPlayers | client/js/control.js:193-223 | The drawing is complete exactly when every ranked player can be drawn: it has a history, and when that history has two or more entries its last entry holds the token of that player or of one ranked before it. A complete drawing holds every ranked player, and an incomplete one at least one. |
| Reconcile.DrawnFromInRankOrder | client/js/control.js:193-223 | Drawing j from player i on is ranked token i + j, at its 0-based cell in its frozen colour, with the trail its history gives. |
| Reconcile.DrawnInRankOrder | client/js/control.js:193-223 | Drawn player i is ranked token i at its 0-based cell, in its frozen colour. A drawable player has the trail its history gives. A player whose token cannot be turned has that trail without the facing, and a player without history has none. |
| Reconcile.DrawingStopsAtFirstMissing | client/js/control.js:193-223 | An incomplete drawing ends with the first ranked player that cannot be drawn. Every player before it could be drawn. |
| Reconcile.DrawFromStops | client/js/control.js:193-223 | Drawing from player i on, an incomplete drawing ends with the first player from i on that cannot be drawn. |
| Reconcile.OwnTokenDrawsFully | client/js/control.js:193-223 | When every ranked player has a history that ends on its own token, the drawing is complete. |
| Effects.ApplyTimers | client/js/control.js:76-82 | A timer runs afterwards only if it ran before or was started. A running timer that is neither started nor stopped keeps running. |
| Effects.ApplyTimersAppend | client/js/control.js:76-82 | Running two batches of commands in turn is running them together. |
| Effects.QuietKeepsTimers | client/js/control.js:76-82 | Commands that touch no timer leave the running timers unchanged. |
| TronGame.Init | client/js/control.js:49-74 | A new match has an empty queue, the token at (4, 4), no dialog, no turn holder, no colours and no timer. Its only command is the first state poll. |
| TronGame.KeyDirection | client/js/control.js:286-303 | The arrow keys and W, A, S, D, and only these, name the four directions. |
| TronGame.CanMoveStaysInGrid | client/js/control.js:249-264 | A move the bounds check allows stays on the grid and is a unit step. |
| TronGame.OwnColor | client/js/control.js:313-319 | Before any colours are known, queued moves are marked in colour 0. Afterwards they are marked in the local player's frozen colour. |
| TronGame.QueueMove | client/js/control.js:286-319 | An admissible move is appended to the queue and marked in the player's colour. Admissible means in bounds, on the local player's turn, not already queued and not onto the token. An inadmissible move changes nothing. |
| TronGame.SubmissionRoundTrip | client/js/control.js:268-283 | The submitted steps are the token's cell and then the queue, shifted to 1-based. Unshifting them gives back exactly the token and the queue. |
| TronGame.CloseDialog | client/js/control.js:86-119 | Closing a dialog that leaves the match goes to the room list. A poll-failure notice leaves only when the game has started by the time it closes. Any other close removes the dialog, and a resuming close arms the poll when none runs. |
| TronGame.Resume | client/js/control.js:111-113 | Resuming arms the poll under the new handle when none runs, and otherwise changes nothing. |
| TronGame.CloseExisting | client/js/control.js:86-89 | Unless it leaves the match, closing the open dialog leaves no dialog open. It changes nothing but the poll slot, and that only by arming a new poll into an empty slot. |
| TronGame.OnKey | client/js/control.js:233-321 | With a dialog open, the key goes to the dialog alone. Escape clears the queue and Enter submits it. A direction key queues a move exactly when the move is admissible. Other keys do nothing. |
| TronGame.OnKeyKeepsQueueOk | client/js/control.js:286-319 | Every key keeps the queue a chain of distinct in-grid unit steps starting next to the token. |
| TronGame.StepsAccepted | client/js/control.js:268-283 | Accepted steps clear the queue and its marks and poll the state at once. |
| TronGame.RequestFailed | client/js/control.js:17-32 | A failed submission replaces the open dialog by an error notice and keeps the queue and the token. |
| TronGame.Shown | client/js/control.js:154-223 | A redraw clears the map, then shows the notice if there is one and draws last, without touching timers. |
| TronGame.Read | client/js/control.js:142-223 | A poll updates only the turn holder, the token and the colours. The token moves to the local player's first token tile, the colours are frozen from the ranked tokens, and the notice and drawing are those of the ranked tokens. The reading is complete exactly when every ranked player can be drawn. |
| TronGame.StatePolled | client/js/control.js:120-230 | Once the game has started, a poll that reports a single player opens the won-game notice and stops the poll. Otherwise the turn holder, token and colours are those read, and the queue and dialog are kept. The game counts as started after a complete drawing. A complete drawing arms the poll as the last command when none runs; otherwise the commands are just the redraw. |
| TronGame.StatePollFailed | client/js/control.js:86-119 | A failed poll stops polling. It shows "you lost" once the game has started and an error notice before. The notice decides when it closes: it returns to the room list if the game has started by then, and otherwise resumes polling. |
| TronGame.PollDrawsRankedPlayers | client/js/control.js:175-223 | A poll of a running game draws the players ranked by sort key, in the frozen colours, with their trails. |
| TronGame.Handle | client/js/control.js:84-321 | No event changes the local player. Only a key or an accepted submission changes the queue. Only a successful poll changes the colours, and never once they are set. |
| TronGame.CloseKeepsTimersTracked | client/js/control.js:86-119 | After closing a dialog, every running timer is the match's own poll. |
| TronGame.KeyKeepsTimersTracked | client/js/control.js:233-321 | After a key press, every running timer is the match's own poll. |
| TronGame.PolledKeepsTimersTracked | client/js/control.js:120-230 | After a successful poll, every running timer is the match's own poll. The poll is armed only while none runs, and the game-over branch stops it. |
| TronGame.PollFailedKeepsTimersTracked | client/js/control.js:86-119 | After a failed poll, every running timer is the match's own poll. |
| TronGame.HandleKeepsTimersTracked | client/js/control.js:76-230 | After any match event, every running timer is the match's own poll. |
| Scenes.DetailButtons | client/js/control.js:422-488 | The room scene has the buttons Start Game, Leave Room, Set Ready, Set Computer Count and Set Password, with the first selected. |
| Scenes.Start | client/js/control.js:514-539 | The client starts on the name form, with no player, no room and no timers. |
| Scenes.HaltCmds | client/js/control.js:490-496 | Halting a scene stops exactly the timers it holds. |
| Scenes.Construct | client/js/control.js:325-338 | A new scene holds no timer. The room list fetches the rooms, the room scene fetches its room (its constructor, control.js lines 393-400), and the match takes TronGame.Init's state and command, so it starts with its token at (4, 4) and polls the state (its constructor and init, control.js lines 49-74). |
| Scenes.ChangeScene | client/js/control.js:560-566 | The old scene is halted before the new one starts, so its timers are stopped, and the scene count advances. With no leak before, no timer runs afterwards. |
| Scenes.StopsRemove | client/js/control.js:490-496 | Halting removes the scene's timers from the running ones. |
| Scenes.DialogKeyOutside | client/js/control.js:340-380 | An edit keeps the dialog open and a close removes it. A submission sends a create-player request with the typed name, or a join request for the highlighted room. Nothing else is sent, and nothing but the dialog changes. |
| Scenes.RoomListKey | client/js/control.js:340-389 | Up/W and Down/S move the selection. R refetches the rooms, C creates a room, and Enter opens the join form. |
| Scenes.PushDetailButton | client/js/control.js:424-486 | Start Game sends a start request, Leave Room a leave request and Set Ready a ready request. The last two buttons open the computer-count and password forms over the unchanged room scene. |
| Scenes.RoomDetailKey | client/js/control.js:498-511 | Up and Down move the button selection and Enter pushes the selected button. |
| Scenes.KeyDown | client/js/control.js:340-546 | A key goes to the open dialog, else to the scene: the match's key handler, the room list's (RoomListKey) or the room scene's (RoomDetailKey). Outside the match a key never changes the kind of scene, the player, the room or the timers. The initial scene ignores keys while its form is closed. |
| Scenes.ApplyMatch | client/js/control.js:104-131 | A step that does not leave the match updates the match scene and the running timers. A leaving step forgets the room, stops the match's poll and opens the room list, which fetches the rooms. |
| Scenes.DialogTakesAllKeys | client/js/control.js:340-346 | While a dialog is open outside the match, a key touches nothing but that dialog. |
| Scenes.MatchDialogTakesAllKeys | client/js/control.js:234-237 | While a dialog is open in the match, a key leaves the queue, the token and the colours alone and sends nothing. |
| Scenes.GenericError | client/js/control.js:17-32 | A failed request of a scene outside the match opens an error notice with the request's error text in place of the open dialog. Nothing else changes. |
| Scenes.RoomPolled | client/js/control.js:402-420 | The room poll lists the players. A ready room switches to the match. Otherwise the poll is armed once. No timer leaks. |
| Scenes.RoomPolledAsWritten | client/js/control.js:412-418 | As written, a ready room's first poll switches to the match and then still arms a poll timer. |
| Scenes.RoomPollLeaksTimer | client/js/control.js:412-418 | After that poll a timer runs that no scene holds. |
| Scenes.StaleRoomPolledAsWritten | client/js/control.js:402-420 | As written, a room poll answered after its scene was halted arms a new room poll when that scene had none. |
| Scenes.StaleRoomPollLeaksTimer | client/js/control.js:402-420 | Leaving a room before its first poll is answered leaves a timer that no scene holds. Dropping the stale answer, as the handler does, changes nothing. |
| Scenes.Handle | client/js/control.js:325-530 | A response for a halted scene is dropped. A created player is recorded and, while the name form is open, the room list follows. A joined or created room is recorded and its scene follows. A started game opens the match, a left room returns to the room list, and a set ready flag polls the room. A failure opens an error notice, and a list or ready response keeps the timers. |
| Scenes.ApplyMatchKeepsNoLeak | client/js/control.js:76-82 | Match steps keep every running timer held by the current scene. |
| Scenes.HandleKeepsNoLeak | client/js/control.js:325-530 | Every event keeps every running timer held by the current scene. |
| Scenes.RespondKeepsNoLeak | client/js/control.js:325-530 | Every response meant for the current scene keeps every running timer held by that scene. |
| ServerMap.Build | maps.py:4-16 | The constructor's loops set every board cell to its clamped neighbours and leave any other entry alone. |
| ServerMap.NeighboursClamped | maps.py:7-16 | The neighbours are left, right, up and down, each one step away or, at that edge, the cell itself. All are on the board. |
| ServerMap.NeighboursSymmetric | maps.py:7-16 | Away from the edges, the right neighbour's left neighbour is the cell, and so on for each direction. |
| ServerMap.BuildIdempotent | maps.py:1-16 | Building the shared table again changes nothing. |
| ServerMap.TableHas256Keys | maps.py:5-7 | Built from nothing, the table has exactly the 256 board cells as keys. |
| ServerRoom.NewRoom | src/room.py:4-7 | A new room has the master, no players and is not ready. |
| ServerRoom.AddPlayer | src/room.py:9-10 | The player is appended at the end, and master and ready are kept. |
| ServerRoom.GetPlayers | src/room.py:12-13 | The players are returned in joining order. |
| ServerRoom.SetReady | src/room.py:15-16 | Ready is flipped and nothing else changes. |
| ServerRoom.SetReadyTwice | src/room.py:15-16 | Flipping twice restores the room. |
| ServerRoom.AddAllAppends | src/room.py:9-13 | Players added one by one are listed after the existing ones, in joining order. |
| ServerRoom.JoinOrderKept | src/room.py:4-13 | A new room's players are exactly those that joined, in order, and the room is still not ready. |

## Left out

- Drawing on the canvas, fonts, layout and the notification element are not modelled. The model records what is drawn (`Draw`, `Notify`, `MarkPending`), not how.
- The request handlers in client/js/data.js and the network are not modelled. A request is a `Send` command, and its answer is an event fed to `Scenes.Handle`.
- Real timers, `setInterval` and the key listener are not modelled. Timer handles are parameters (`newTimer`), and listener registration is left out.
- `Tron`, `TronElem`, `PendingMoveElem`, `NotificationElem` and the game-over dialog's class are not part of this model. The game-over notice is taken to be built like an error notice, with one OK button.
- Directions.Negate: the helper that negates a direction is not part of this model. It is taken to be the geometric opposite. The client can also pass it a missing direction; `NegateOpt` takes that to give a missing direction.
- Board.AddPlayer: the client's call passes a colour that the map method drops. The model drops it too.
- Board.Put: an off-board write is excluded by a precondition. In the client an off-board row throws, because the row does not exist, and an off-board column adds a stray entry to the row.
- TronGame.QueueMove: there is no cap on the queue length. The code has none.
- Trail.TrailOf: the history is read oldest first, and the facing comes from the last two entries, as the code does.
- PlayerOrder.SortTiles: the sort is stable, but its order among tokens with equal keys is stated only through the permutation and sortedness facts. Uniqueness is claimed for distinct keys only.
- Scenes.Handle: a response for a halted scene is dropped. In the client its callback runs against the halted scene. Most callbacks throw there, on the cleared manager or canvas, but the room poll's arms a timer (see Findings).
- Reconcile.DrawPlayers: the map's trail-drawing method is not part of this model. Trail pieces are taken not to overwrite token tiles, so a turn succeeds exactly when a token placed in this poll stands at the last history entry. The map is taken to be emptied before drawing, as its clearing method's name says.
- ServerRoom.GetPlayers: the function returns the list as a value. The Python method returns the room's own list, so a caller that changes it changes the room; the model has no aliasing.
- TronGame.StatePolled: the game-over notice replaces an open dialog without running its close callback, as the code does.
- Scenes.ChangeScene: the requests a new scene sends from its constructor are ordered after the old scene's halt. They touch no timer, so the running timers are the same either way.
- The Python server beyond maps.py and src/room.py (api.py, db.py, the game control, players and map objects) is not part of this model.
- Key events are reduced to their key code and shift flag.

## Findings

| source | as written | input that shows it | evidently intended | confidence | as-written member | corrected member |
|---|---|---|---|---|---|---|
| client/js/control.js:412-418 | After a polled room with `ready` switches to the match, the handler still arms the five-second room poll when none was armed, on the room scene it has just halted. | The first poll of a room that is already ready: the room scene has no interval yet. | Stop after switching to the match, so that no room poll outlives its scene. | not executed | Scenes.RoomPolledAsWritten, Scenes.RoomPollLeaksTimer | Scenes.RoomPolled, Scenes.HandleKeepsNoLeak |
| client/js/control.js:402-420 | The room poll's answer runs against the scene that asked, even after that scene was halted. When it was halted before it armed its poll, the answer arms one for it, and nothing can stop it. | Press Leave Room right after entering a room, with the Leave Room answer arriving before the answer to the room's first poll (two requests in flight, answered out of order); that poll answer reports the room not ready. | Ignore answers for a halted scene. | not executed | Scenes.StaleRoomPolledAsWritten, Scenes.StaleRoomPollLeaksTimer | Scenes.Handle, Scenes.HandleKeepsNoLeak |
