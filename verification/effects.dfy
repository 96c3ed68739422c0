/** What the client's scenes ask of the outside world, as data: requests to the
    server, timer arming and disarming, and updates to what is on screen. */
module Effects {
  import opened Basics
  import opened Reconcile

  /** The server requests the client issues (the endpoint and its arguments). */
  datatype Request =
    | CreatePlayer(name: string)
    | FetchRoomList
    | JoinRoom(target: Id, player: Option<Id>)
    | CreateRoom(master: Option<Id>)
    | FetchRoom(room: Option<Id>)
    | StartGame(room: Option<Id>)
    | LeaveRoom(room: Option<Id>, player: Option<Id>)
    | SetReady(player: Option<Id>)
    | FetchState(player: Option<Id>)
    | SubmitSteps(player: Option<Id>, steps: seq<Pos>)

  datatype Cmd =
    | Send(request: Request)
    /** Arms a recurring five-second poll under the given handle. */
    | StartTimer(timer: TimerId)
    | StopTimer(timer: TimerId)
    /** Marks a queued move on the grid in the given colour. */
    | MarkPending(at: Pos, color: Option<int>)
    | ClearPendingMarks
    | ClearMap
    | Draw(drawing: Drawing)
    | Notify(notice: Notice)
    /** The match scene's request to forget the room and return to the room list. */
    | LeaveToRoomList

  /** The running poll timers after one command. */
  function ApplyTimer(live: set<TimerId>, c: Cmd): set<TimerId> {
    match c
    case StartTimer(t) => live + {t}
    case StopTimer(t) => live - {t}
    case _ => live
  }

  /** The set of running poll timers after the commands run, in order. */
  function ApplyTimers(live: set<TimerId>, cmds: seq<Cmd>): (r: set<TimerId>)
    ensures forall t :: t in r ==> t in live || StartTimer(t) in cmds
    ensures forall t :: t in live && StartTimer(t) !in cmds && StopTimer(t) !in cmds ==> t in r
    decreases |cmds|
  {
    if |cmds| == 0 then live
    else
      assert forall c :: c in cmds[1..] ==> c in cmds;
      ApplyTimers(ApplyTimer(live, cmds[0]), cmds[1..])
  }

  /** Commands that neither arm nor disarm a timer. */
  predicate Quiet(cmds: seq<Cmd>) {
    forall i :: 0 <= i < |cmds| ==> !cmds[i].StartTimer? && !cmds[i].StopTimer?
  }

  /** Running commands one batch after another is running them together. */
  lemma {:induction false} ApplyTimersAppend(live: set<TimerId>, a: seq<Cmd>, b: seq<Cmd>)
    ensures ApplyTimers(live, a + b) == ApplyTimers(ApplyTimers(live, a), b)
    decreases |a|
  {
    if |a| > 0 {
      assert (a + b)[0] == a[0] && (a + b)[1..] == a[1..] + b;
      ApplyTimersAppend(ApplyTimer(live, a[0]), a[1..], b);
    } else {
      assert a + b == b;
    }
  }

  /** Quiet commands leave the running timers as they are. */
  lemma {:induction false} QuietKeepsTimers(live: set<TimerId>, cmds: seq<Cmd>)
    requires Quiet(cmds)
    ensures ApplyTimers(live, cmds) == live
    decreases |cmds|
  {
    if |cmds| > 0 {
      assert Quiet(cmds[1..]) by {
        forall i | 0 <= i < |cmds[1..]| ensures !cmds[1..][i].StartTimer? && !cmds[1..][i].StopTimer? {
          assert cmds[1..][i] == cmds[i + 1];
        }
      }
      QuietKeepsTimers(live, cmds[1..]);
    }
  }
}
