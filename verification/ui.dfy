/** The selection and text-entry state of the client's widgets: the room list,
    button groups, dialog options, dialogs, and element-list removal. */
module Ui {
  import opened Basics

  /** `flag` holds of exactly the element at index `sel` (and of nothing when
      the list is empty). */
  predicate OneHot<T>(xs: seq<T>, flag: T -> bool, sel: int) {
    (|xs| > 0 ==> 0 <= sel < |xs|)
    && forall i :: 0 <= i < |xs| ==> (flag(xs[i]) <==> i == sel)
  }

  // ---------------------------------------------------------------- room list

  datatype RoomElem<R> = RoomElem(id: int, room: R, selected: bool)

  datatype RoomList<R> = RoomList(rooms: seq<RoomElem<R>>, selected: int)

  function RoomFlag<R>(e: RoomElem<R>): bool { e.selected }

  /** Each room element is numbered by its position and exactly the selected
      one is highlighted. */
  predicate RoomListValid<R>(l: RoomList<R>) {
    OneHot(l.rooms, RoomFlag, l.selected)
    && forall i :: 0 <= i < |l.rooms| ==> l.rooms[i].id == i
  }

  function NewRoomList<R>(): (l: RoomList<R>)
    ensures RoomListValid(l) && |l.rooms| == 0
  {
    RoomList([], 0)
  }

  /** Moves the highlight to room `n`. Indices outside the list are ignored. A
      stale highlight index makes the client throw before anything changes. */
  function SelectRoom<R>(l: RoomList<R>, n: int): (l': RoomList<R>)
    ensures n < 0 || n >= |l.rooms| ==> l' == l
    ensures RoomListValid(l) ==> RoomListValid(l')
    ensures RoomListValid(l) && 0 <= n < |l.rooms| ==> l'.selected == n
    ensures |l'.rooms| == |l.rooms|
    ensures forall i :: 0 <= i < |l.rooms| ==>
              l'.rooms[i].id == l.rooms[i].id && l'.rooms[i].room == l.rooms[i].room
  {
    if n < 0 || n >= |l.rooms| || !(0 <= l.selected < |l.rooms|) then l
    else
      var cleared := l.rooms[l.selected := l.rooms[l.selected].(selected := false)];
      RoomList(cleared[n := cleared[n].(selected := true)], n)
  }

  function SelectPreviousRoom<R>(l: RoomList<R>): RoomList<R> {
    SelectRoom(l, l.selected - 1)
  }

  function SelectNextRoom<R>(l: RoomList<R>): RoomList<R> {
    SelectRoom(l, l.selected + 1)
  }

  /** Moving the highlight clamps at both ends of the list. */
  lemma RoomNavigationClamps<R>(l: RoomList<R>)
    requires RoomListValid(l) && |l.rooms| > 0
    ensures SelectPreviousRoom(l).selected == if l.selected == 0 then 0 else l.selected - 1
    ensures SelectNextRoom(l).selected == if l.selected == |l.rooms| - 1 then l.selected else l.selected + 1
  {
  }

  /** Replaces the list with freshly numbered elements, highlighting the first
      when there is one; an empty refresh keeps the old highlight index. */
  function UpdateRoomList<R>(l: RoomList<R>, data: seq<R>): (l': RoomList<R>)
    ensures RoomListValid(l')
    ensures |l'.rooms| == |data|
    ensures forall i :: 0 <= i < |data| ==> l'.rooms[i].room == data[i]
    ensures |data| > 0 ==> l'.selected == 0
  {
    var elems := seq(|data|, i requires 0 <= i < |data| => RoomElem(i, data[i], false));
    if |elems| > 0 then RoomList(elems[0 := elems[0].(selected := true)], 0)
    else RoomList(elems, l.selected)
  }

  /** The room the highlight is on, if any. */
  function SelectedRoom<R>(l: RoomList<R>): (r: Option<R>)
    ensures r.Some? <==> 0 <= l.selected < |l.rooms|
    ensures RoomListValid(l) && r.Some? ==>
              exists i :: 0 <= i < |l.rooms| && l.rooms[i].selected && r.value == l.rooms[i].room
  {
    if 0 <= l.selected < |l.rooms| then
      assert RoomListValid(l) ==> RoomFlag(l.rooms[l.selected]);
      Some(l.rooms[l.selected].room)
    else None
  }

  /** Whether room element `id` is drawn: the list shows a window of five rooms
      starting at the highlighted one. */
  predicate RoomVisible(id: int, selected: int) {
    !(id > selected + 4 || id < selected)
  }

  /** In a valid list, exactly the elements at positions selected .. selected+4
      are drawn; in particular the highlighted room always is. */
  lemma VisibleWindow<R>(l: RoomList<R>, i: int)
    requires RoomListValid(l) && 0 <= i < |l.rooms|
    ensures RoomVisible(l.rooms[i].id, l.selected) <==> l.selected <= i <= l.selected + 4
    ensures l.rooms[i].selected ==> RoomVisible(l.rooms[i].id, l.selected)
  {
  }

  // ------------------------------------------------------------------ buttons

  datatype Button = Button(id: int, text: string, selected: bool)

  datatype Buttons = Buttons(buttons: seq<Button>, selectedButton: int)

  function ButtonFlag(b: Button): bool { b.selected }

  /** Exactly the selected button is highlighted; while the group is empty the
      selection index stays at its initial 0. */
  predicate ButtonsValid(m: Buttons) {
    OneHot(m.buttons, ButtonFlag, m.selectedButton)
    && (|m.buttons| == 0 ==> m.selectedButton == 0)
    && forall i :: 0 <= i < |m.buttons| ==> m.buttons[i].id == i
  }

  function NewButtons(): (m: Buttons)
    ensures ButtonsValid(m) && |m.buttons| == 0
  {
    Buttons([], 0)
  }

  /** Appends a button; the first button added starts selected. */
  function AddButton(m: Buttons, name: string): (m': Buttons)
    ensures ButtonsValid(m) ==> ButtonsValid(m')
    ensures |m'.buttons| == |m.buttons| + 1 && m'.buttons[..|m.buttons|] == m.buttons
    ensures m'.buttons[|m.buttons|].text == name
    ensures m'.buttons[|m.buttons|].selected <==> |m.buttons| == 0
    ensures m'.selectedButton == m.selectedButton
  {
    Buttons(m.buttons + [Button(|m.buttons|, name, |m.buttons| == 0)], m.selectedButton)
  }

  /** Selects button `n`: negative indices are ignored and indices past the
      end wrap to the first button. */
  function SelectButton(m: Buttons, n: int): (m': Buttons)
    ensures n < 0 ==> m' == m
    ensures ButtonsValid(m) ==> ButtonsValid(m')
    ensures ButtonsValid(m) && |m.buttons| > 0 && n >= 0 ==>
              m'.selectedButton == (if n >= |m.buttons| then 0 else n)
    ensures |m'.buttons| == |m.buttons|
    ensures forall i :: 0 <= i < |m.buttons| ==>
              m'.buttons[i].id == m.buttons[i].id && m'.buttons[i].text == m.buttons[i].text
  {
    if n < 0 then m
    else
      var k := if n >= |m.buttons| then 0 else n;
      if !(0 <= m.selectedButton < |m.buttons|) then m
      else
        var cleared := m.buttons[m.selectedButton := m.buttons[m.selectedButton].(selected := false)];
        Buttons(cleared[k := cleared[k].(selected := true)], k)
  }

  function SelectPreviousButton(m: Buttons): Buttons {
    SelectButton(m, m.selectedButton - 1)
  }

  function SelectNextButton(m: Buttons): Buttons {
    SelectButton(m, m.selectedButton + 1)
  }

  /** "Next" moves forward cyclically; "previous" stops at the first button. */
  lemma ButtonNavigation(m: Buttons)
    requires ButtonsValid(m) && |m.buttons| > 0
    ensures SelectNextButton(m).selectedButton == (m.selectedButton + 1) % |m.buttons|
    ensures SelectPreviousButton(m).selectedButton == if m.selectedButton == 0 then 0 else m.selectedButton - 1
  {
    var n, i := |m.buttons|, m.selectedButton;
    if i + 1 < n {
      assert (i + 1) % n == i + 1;
    } else {
      assert i + 1 == n;
      assert (i + 1) % n == 0;
    }
  }

  /** `k` presses of "next". */
  function NextTimes(m: Buttons, k: nat): Buttons {
    if k == 0 then m else SelectNextButton(NextTimes(m, k - 1))
  }

  /** Two valid button groups with the same buttons' ids and texts and the same
      selection are equal. */
  lemma ButtonsDeterminedBySelection(m: Buttons, m2: Buttons)
    requires ButtonsValid(m) && ButtonsValid(m2)
    requires |m.buttons| == |m2.buttons| > 0 && m.selectedButton == m2.selectedButton
    requires forall i :: 0 <= i < |m.buttons| ==> m.buttons[i].text == m2.buttons[i].text
    ensures m == m2
  {
    assert forall i :: 0 <= i < |m.buttons| ==> ButtonFlag(m.buttons[i]) == ButtonFlag(m2.buttons[i]);
    assert m.buttons == m2.buttons;
  }

  /** `x` is the remainder of `a` by `n` whenever `a` is some multiple of
      `n` plus `x` with `0 <= x < n`. */
  lemma ModUnique(a: int, n: int, q: int, x: int)
    requires n > 0 && 0 <= x < n && a == n * q + x
    ensures a % n == x
  {
    var q2, x2 := a / n, a % n;
    assert n * q + x == n * q2 + x2;
    if q < q2 {
      assert n * (q2 - q) >= n by { MulAtLeast(n, q2 - q); }
      assert false;
    } else if q2 < q {
      assert n * (q - q2) >= n by { MulAtLeast(n, q - q2); }
      assert false;
    }
  }

  lemma MulAtLeast(n: int, d: int)
    requires n > 0 && d >= 1
    ensures n * d >= n
  {
  }

  /** One more step past a remainder is the remainder of one more step. */
  lemma ModStep(a: nat, n: nat)
    requires n > 0
    ensures (a % n + 1) % n == (a + 1) % n
  {
    var q, x := a / n, a % n;
    if x + 1 < n {
      ModUnique(a + 1, n, q, x + 1);
      ModUnique(x + 1, n, 0, x + 1);
    } else {
      assert x + 1 == n;
      ModUnique(a + 1, n, q + 1, 0);
      ModUnique(x + 1, n, 1, 0);
    }
  }

  lemma {:induction false} NextTimesAdvances(m: Buttons, k: nat)
    requires ButtonsValid(m) && |m.buttons| > 0
    ensures ButtonsValid(NextTimes(m, k))
    ensures |NextTimes(m, k).buttons| == |m.buttons|
    ensures forall i :: 0 <= i < |m.buttons| ==> NextTimes(m, k).buttons[i].text == m.buttons[i].text
    ensures NextTimes(m, k).selectedButton == (m.selectedButton + k) % |m.buttons|
  {
    var n := |m.buttons|;
    if k == 0 {
      ModUnique(m.selectedButton, n, 0, m.selectedButton);
    } else {
      NextTimesAdvances(m, k - 1);
      var prev := NextTimes(m, k - 1);
      assert NextTimes(m, k) == SelectNextButton(prev);
      ButtonNavigation(prev);
      ModStep(m.selectedButton + k - 1, n);
    }
  }

  /** Pressing "next" once per button brings the group back to where it started. */
  lemma NextButtonCycles(m: Buttons)
    requires ButtonsValid(m) && |m.buttons| > 0
    ensures NextTimes(m, |m.buttons|) == m
  {
    NextTimesAdvances(m, |m.buttons|);
    ModUnique(m.selectedButton + |m.buttons|, |m.buttons|, 1, m.selectedButton);
    ButtonsDeterminedBySelection(NextTimes(m, |m.buttons|), m);
  }

  // ------------------------------------------------------------ dialog options

  /** The kind of text an option accepts (constants 1, 2 and 3 in the client). */
  datatype OptionType = Text | Password | ComputerNumber

  datatype OptionElem = OptionElem(id: int, name: string, kind: OptionType, maxlen: int,
                                   value: string, selected: bool)

  predicate IsLetterCode(c: int) { 65 <= c <= 90 }
  predicate IsDigitCode(c: int) { 48 <= c <= 57 }

  /** The character a key stands for: digits as themselves, letters in lower
      case unless shift is held; other keys stand for no character. */
  function KeyChar(k: Key): (r: Option<char>)
    ensures r.Some? <==> IsDigitCode(k.code) || IsLetterCode(k.code)
    ensures IsDigitCode(k.code) ==> r.value as int == k.code
    ensures IsLetterCode(k.code) && k.shift ==> r.value as int == k.code
    ensures IsLetterCode(k.code) && !k.shift ==> r.value as int == k.code + 32
    ensures r.Some? ==> ('0' <= r.value <= '9') || ('a' <= r.value <= 'z') || ('A' <= r.value <= 'Z')
    ensures r.Some? && 'a' <= r.value <= 'z' ==> !k.shift
    ensures r.Some? && 'A' <= r.value <= 'Z' ==> k.shift
  {
    if IsDigitCode(k.code) then Some(k.code as char)
    else if IsLetterCode(k.code) then Some(if k.shift then k.code as char else (k.code + 32) as char)
    else None
  }

  /** Which characters an option of each kind admits. */
  predicate Admits(kind: OptionType, c: char) {
    match kind
    case Text => ('0' <= c <= '9') || ('a' <= c <= 'z') || ('A' <= c <= 'Z')
    case Password => '0' <= c <= '9'
    case ComputerNumber => '0' <= c <= '3'
  }

  /** Types one key into an option: the value never grows past `maxlen`, only
      letters and digits are admitted, a password takes digits only, a computer
      count takes 0-3 only, and letters are lower-cased unless shift is held. */
  function AddCharacter(o: OptionElem, k: Key): (o': OptionElem)
    ensures o' == o.(value := o'.value)
    ensures o'.value == if |o.value| < o.maxlen && KeyChar(k).Some? && Admits(o.kind, KeyChar(k).value)
                        then o.value + [KeyChar(k).value] else o.value
    ensures |o'.value| > |o.value| ==> |o'.value| <= o.maxlen
  {
    if |o.value| >= o.maxlen then o
    else if !IsLetterCode(k.code) && !IsDigitCode(k.code) then o
    else if o.kind == Password && IsLetterCode(k.code) then o
    else if o.kind == ComputerNumber && (IsLetterCode(k.code) || 52 <= k.code <= 57) then o
    else
      var code := if IsLetterCode(k.code) && !k.shift then k.code + 32 else k.code;
      o.(value := o.value + [code as char])
  }

  /** Deletes the last character; an empty value stays empty. */
  function RemoveCharacter(o: OptionElem): (o': OptionElem)
    ensures o' == o.(value := o'.value)
    ensures |o.value| == 0 ==> o' == o
    ensures |o.value| > 0 ==> o'.value + [o.value[|o.value| - 1]] == o.value
  {
    if |o.value| == 0 then o else o.(value := o.value[..|o.value| - 1])
  }

  /** Deleting right after an accepted keystroke undoes it. */
  lemma RemoveUndoesAdd(o: OptionElem, k: Key)
    requires AddCharacter(o, k) != o
    ensures RemoveCharacter(AddCharacter(o, k)) == o
  {
    var o' := AddCharacter(o, k);
    assert o'.value[..|o'.value| - 1] == o.value;
  }

  // ------------------------------------------------------------------ dialogs

  datatype Dialog = Dialog(options: seq<OptionElem>, selectedOption: int, buttons: Buttons)

  function OptionFlag(o: OptionElem): bool { o.selected }

  predicate DialogValid(d: Dialog) {
    OneHot(d.options, OptionFlag, d.selectedOption)
    && (|d.options| == 0 ==> d.selectedOption == 0)
    && (forall i :: 0 <= i < |d.options| ==> d.options[i].id == i)
    && ButtonsValid(d.buttons) && |d.buttons.buttons| > 0
  }

  /** A dialog starts with an OK button and, unless told otherwise, a Cancel button. */
  function NewDialog(hasCancel: bool): (d: Dialog)
    ensures DialogValid(d) && |d.options| == 0
    ensures |d.buttons.buttons| == if hasCancel then 2 else 1
    ensures d.buttons.buttons[0].text == "OK" && d.buttons.selectedButton == 0
  {
    var ok := AddButton(NewButtons(), "OK");
    Dialog([], 0, if hasCancel then AddButton(ok, "Cancel") else ok)
  }

  /** Appends an empty option; the first one added starts selected. */
  function AddOption(d: Dialog, name: string, kind: OptionType, maxlen: int): (d': Dialog)
    ensures DialogValid(d) ==> DialogValid(d')
    ensures |d'.options| == |d.options| + 1 && d'.options[..|d.options|] == d.options
    ensures d'.options[|d.options|].value == "" && d'.options[|d.options|].kind == kind
    ensures d'.options[|d.options|].maxlen == maxlen
    ensures d'.buttons == d.buttons && d'.selectedOption == d.selectedOption
  {
    d.(options := d.options + [OptionElem(|d.options|, name, kind, maxlen, "", |d.options| == 0)])
  }

  /** Moves the option highlight to `n`; indices outside the list are ignored. */
  function SelectOption(d: Dialog, n: int): (d': Dialog)
    ensures n < 0 || n >= |d.options| ==> d' == d
    ensures DialogValid(d) ==> DialogValid(d')
    ensures DialogValid(d) && 0 <= n < |d.options| ==> d'.selectedOption == n
    ensures d'.buttons == d.buttons && |d'.options| == |d.options|
    ensures forall i :: 0 <= i < |d.options| ==> d'.options[i] == d.options[i].(selected := d'.options[i].selected)
  {
    if n < 0 || n >= |d.options| || !(0 <= d.selectedOption < |d.options|) then d
    else
      var cleared := d.options[d.selectedOption := d.options[d.selectedOption].(selected := false)];
      d.(options := cleared[n := cleared[n].(selected := true)], selectedOption := n)
  }

  /** Applies a text edit to the selected option. With no options the client
      throws, leaving the dialog as it was. */
  function EditSelected(d: Dialog, k: Key, delete: bool): (d': Dialog)
    ensures d'.buttons == d.buttons && d'.selectedOption == d.selectedOption
    ensures |d'.options| == |d.options|
    ensures forall i :: 0 <= i < |d.options| && i != d.selectedOption ==> d'.options[i] == d.options[i]
    ensures 0 <= d.selectedOption < |d.options| ==>
              d'.options[d.selectedOption] ==
                (if delete then RemoveCharacter(d.options[d.selectedOption])
                 else AddCharacter(d.options[d.selectedOption], k))
  {
    if !(0 <= d.selectedOption < |d.options|) then d
    else
      var o := d.options[d.selectedOption];
      d.(options := d.options[d.selectedOption := if delete then RemoveCharacter(o) else AddCharacter(o, k)])
  }

  /** What a key does to a dialog: Enter pushes the selected button, Escape asks
      to close, anything else updates the dialog in place. */
  datatype DialogOutcome = Updated(dialog: Dialog) | Pushed(button: int) | CloseRequested

  function DialogKey(d: Dialog, k: Key): (r: DialogOutcome)
    ensures r.Pushed? <==> k.code == Enter
    ensures r.Pushed? ==> r.button == d.buttons.selectedButton
    ensures r.CloseRequested? <==> k.code == Escape
    ensures r.Updated? && DialogValid(d) ==> DialogValid(r.dialog)
    ensures r.Updated? ==> |r.dialog.options| == |d.options|
    ensures r.Updated? && k.code in {ArrowLeft, ArrowRight, Tab} ==> r.dialog.options == d.options
    ensures r.Updated? && !(k.code in {ArrowLeft, ArrowRight, Tab}) ==> r.dialog.buttons == d.buttons
    ensures k.code == ArrowUp ==> r == Updated(SelectOption(d, d.selectedOption - 1))
    ensures k.code == ArrowDown ==> r == Updated(SelectOption(d, d.selectedOption + 1))
    ensures k.code == ArrowLeft ==> r == Updated(d.(buttons := SelectPreviousButton(d.buttons)))
    ensures k.code == ArrowRight || k.code == Tab ==> r == Updated(d.(buttons := SelectNextButton(d.buttons)))
    ensures k.code == Backspace ==> r == Updated(EditSelected(d, k, true))
    ensures !(k.code in {Enter, Escape, ArrowUp, ArrowDown, ArrowLeft, ArrowRight, Tab, Backspace}) ==>
              r == Updated(EditSelected(d, k, false))
  {
    if k.code == Enter then Pushed(d.buttons.selectedButton)
    else if k.code == Escape then CloseRequested
    else if k.code == ArrowUp then Updated(SelectOption(d, d.selectedOption - 1))
    else if k.code == ArrowDown then Updated(SelectOption(d, d.selectedOption + 1))
    else if k.code == ArrowLeft then Updated(d.(buttons := SelectPreviousButton(d.buttons)))
    else if k.code == ArrowRight then Updated(d.(buttons := SelectNextButton(d.buttons)))
    else if k.code == Backspace then Updated(EditSelected(d, k, true))
    else if k.code == Tab then Updated(d.(buttons := SelectNextButton(d.buttons)))
    else Updated(EditSelected(d, k, false))
  }

  // -------------------------------------------------------- removal from lists

  /** Position of the first occurrence of `x`, or -1. */
  function IndexOf<T(==)>(s: seq<T>, x: T): (i: int)
    ensures -1 <= i < |s|
    ensures i >= 0 ==> s[i] == x && x !in s[..i]
    ensures i == -1 <==> x !in s
  {
    if |s| == 0 then -1
    else if s[0] == x then 0
    else
      var j := IndexOf(s[1..], x);
      assert s[1..][..if j < 0 then 0 else j] == s[1..if j < 0 then 1 else j + 1];
      if j < 0 then -1 else j + 1
  }

  /** Deletes the first occurrence of `x` (element lists and player lists);
      an absent item leaves the list unchanged. */
  function RemoveFirst<T(==)>(s: seq<T>, x: T): (r: seq<T>)
    ensures x !in s ==> r == s
    ensures x in s ==> |r| == |s| - 1
    ensures multiset(r) == multiset(s) - multiset{x}
  {
    var i := IndexOf(s, x);
    if i < 0 then s
    else
      assert s == s[..i] + [s[i]] + s[i + 1..];
      s[..i] + s[i + 1..]
  }

  /** Only the first occurrence goes: putting `x` back at its first position
      restores the list, and everything before that position is untouched. */
  lemma RemoveFirstRestores<T>(s: seq<T>, x: T)
    requires x in s
    ensures var i := IndexOf(s, x);
            RemoveFirst(s, x)[..i] == s[..i] && RemoveFirst(s, x)[..i] + [x] + RemoveFirst(s, x)[i..] == s
  {
    var i := IndexOf(s, x);
    assert RemoveFirst(s, x) == s[..i] + s[i + 1..];
    Splice(s, i);
  }

  /** Cutting out element i and putting it back. */
  lemma Splice<T>(s: seq<T>, i: int)
    requires 0 <= i < |s|
    ensures (s[..i] + s[i + 1..])[..i] == s[..i]
    ensures (s[..i] + s[i + 1..])[..i] + [s[i]] + (s[..i] + s[i + 1..])[i..] == s
  {
    var r := s[..i] + s[i + 1..];
    assert r[i..] == s[i + 1..];
    assert s == s[..i] + [s[i]] + s[i + 1..];
  }
}
