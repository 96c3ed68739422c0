/** The dialogs the scenes open, what each is for, what happens when it is
    closed, and how a key press on an open dialog resolves: an edit that keeps
    it open, a request to close it, or a form submission. */
module Dialogs {
  import opened Basics
  import opened Ui

  /** What a dialog is for. Notices show a text and have one OK button; forms
      have one text option and, except the name form, a Cancel button. */
  datatype Purpose =
    | ErrorNotice(text: string)
    | GameOverNotice(won: bool)
    | NameForm
    | JoinForm
    | ComputerCountForm
    | PasswordForm

  /** What the close callback a scene installs does: just remove the dialog;
      remove it and re-arm the state poll if none is running; forget the room
      and return to the room list; or, deciding only when the dialog closes,
      return to the room list if the game has started by then and otherwise
      remove the dialog and re-arm the poll. */
  datatype OnClose = Remove | RemoveAndResume | ReturnToRoomList | ByGameStarted

  datatype OpenDialog = OpenDialog(elem: Dialog, purpose: Purpose, onClose: OnClose)

  predicate IsForm(p: Purpose) {
    p.NameForm? || p.JoinForm? || p.ComputerCountForm? || p.PasswordForm?
  }

  /** A dialog as built by the client: a valid widget, one option for a form
      and none for a notice, and a Cancel button on every form but the name
      form. */
  predicate WellFormed(d: OpenDialog) {
    && DialogValid(d.elem)
    && |d.elem.options| == (if IsForm(d.purpose) then 1 else 0)
    && |d.elem.buttons.buttons| == (if IsForm(d.purpose) && !d.purpose.NameForm? then 2 else 1)
  }

  /** An error notice: no Cancel button and no options. */
  function ErrorDialog(text: string, onClose: OnClose): (d: OpenDialog)
    ensures WellFormed(d) && d.purpose == ErrorNotice(text) && d.onClose == onClose
  {
    OpenDialog(NewDialog(false), ErrorNotice(text), onClose)
  }

  /** The game-over notice. Its widget is not part of this model; it is taken
      to be built like an error notice. */
  function GameOverDialog(won: bool, onClose: OnClose): (d: OpenDialog)
    ensures WellFormed(d) && d.purpose == GameOverNotice(won) && d.onClose == onClose
  {
    OpenDialog(NewDialog(false), GameOverNotice(won), onClose)
  }

  /** The label, kind and length limit of each form's one option. */
  function FormOption(p: Purpose): (r: (string, OptionType, int))
    requires IsForm(p)
  {
    match p
    case NameForm => ("Name", Text, 20)
    case JoinForm => ("Pin (4-digits)", Password, 4)
    case ComputerCountForm => ("Count (0-3)", ComputerNumber, 1)
    case PasswordForm => ("Pin (4-digits)", Password, 4)
  }

  /** A form as a scene opens it; every form's close callback removes it. */
  function FormDialog(p: Purpose): (d: OpenDialog)
    requires IsForm(p)
    ensures WellFormed(d) && d.purpose == p && d.onClose == Remove
    ensures d.elem.options[0].value == "" && d.elem.options[0].kind == FormOption(p).1
    ensures d.elem.options[0].maxlen == FormOption(p).2
  {
    var (name, kind, maxlen) := FormOption(p);
    OpenDialog(AddOption(NewDialog(!p.NameForm?), name, kind, maxlen), p, Remove)
  }

  /** The text typed into a form's option. */
  function Value(d: OpenDialog): string {
    if |d.elem.options| > 0 then d.elem.options[0].value else ""
  }

  /** The shortest value a form's OK button accepts. */
  function MinLength(p: Purpose): nat {
    match p
    case JoinForm => 4
    case PasswordForm => 4
    case _ => 1
  }

  /** How a key press on an open dialog resolves. */
  datatype Reaction = Stay(dialog: OpenDialog) | Close | Submit(value: string)

  /** The OK/Cancel callbacks. Notices close on OK. A form's OK does nothing
      while the value is shorter than the form's minimum; otherwise the name
      and join forms submit the value and the computer-count and password
      forms close (their value is not sent). Cancel closes. */
  function PushButton(d: OpenDialog, b: int): (r: Reaction)
    ensures r.Submit? ==> b == 0 && (d.purpose.NameForm? || d.purpose.JoinForm?)
                          && |Value(d)| >= MinLength(d.purpose) && r.value == Value(d)
    ensures r.Stay? ==> r.dialog == d
    ensures !IsForm(d.purpose) ==> (r.Close? <==> b == 0)
    ensures IsForm(d.purpose) && b == 0 ==> (r.Stay? <==> |Value(d)| < MinLength(d.purpose))
    ensures (d.purpose.NameForm? || d.purpose.JoinForm?) && b == 0 && |Value(d)| >= MinLength(d.purpose) ==>
              r == Submit(Value(d))
    ensures (d.purpose.ComputerCountForm? || d.purpose.PasswordForm?) && b == 0 ==>
              (r.Close? <==> |Value(d)| >= MinLength(d.purpose))
    ensures IsForm(d.purpose) && !d.purpose.NameForm? && b == 1 ==> r.Close?
    ensures d.purpose.NameForm? && b != 0 ==> r == Stay(d)
  {
    if !IsForm(d.purpose) then (if b == 0 then Close else Stay(d))
    else if b == 0 then
      if |Value(d)| < MinLength(d.purpose) then Stay(d)
      else if d.purpose.NameForm? || d.purpose.JoinForm? then Submit(Value(d))
      else Close
    else if b == 1 && !d.purpose.NameForm? then Close
    else Stay(d)
  }

  /** A key on an open dialog: Escape closes it, Enter pushes the selected
      button, and every other key edits it in place. */
  function Press(d: OpenDialog, k: Key): (r: Reaction)
    ensures k.code == Escape ==> r.Close?
    ensures k.code != Enter && k.code != Escape ==> r.Stay?
    ensures k.code == Enter ==> r == PushButton(d, d.elem.buttons.selectedButton)
    ensures r.Stay? ==> r.dialog.purpose == d.purpose && r.dialog.onClose == d.onClose
    ensures r.Stay? && WellFormed(d) ==> WellFormed(r.dialog)
    ensures k.code != Enter && k.code != Escape ==> r == Stay(d.(elem := DialogKey(d.elem, k).dialog))
  {
    match DialogKey(d.elem, k)
    case Updated(e) => Stay(d.(elem := e))
    case CloseRequested => Close
    case Pushed(b) => PushButton(d, b)
  }

  /** Only Enter on the OK button submits, never a value shorter than the
      form's minimum, and what it submits is the option's typed value. */
  lemma SubmitRespectsForm(d: OpenDialog, k: Key)
    requires WellFormed(d) && Press(d, k).Submit?
    ensures k.code == Enter && d.elem.buttons.selectedButton == 0
    ensures MinLength(d.purpose) <= |Press(d, k).value|
    ensures Press(d, k).value == d.elem.options[0].value
  {
  }

  /** On a notice, OK and Escape both close it, and no key submits anything. */
  lemma NoticeOnlyCloses(d: OpenDialog, k: Key)
    requires WellFormed(d) && !IsForm(d.purpose)
    ensures !Press(d, k).Submit?
    ensures k.code == Enter || k.code == Escape ==> Press(d, k).Close?
  {
    assert d.elem.buttons.selectedButton == 0;
  }
}
