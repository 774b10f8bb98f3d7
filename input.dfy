/** The input-state tracker: the last known state of each keyboard key and
    mouse button, and the cursor position, as the event loop reports them. */
module InputState {
  import opened Vectors

  datatype Option<T> = None | Some(value: T)

  /** winit's ElementState. */
  datatype ElementState = Pressed | Released

  newtype u16 = x: int | 0 <= x < 0x1_0000

  /** winit's MouseButton. */
  datatype MouseButton = Left | Right | Middle | Other(id: u16)

  /** winit's VirtualKeyCode. The core names only LAlt; every other key
      code of the enumeration is `OtherKey(n)`. */
  datatype VirtualKeyCode = LAlt | OtherKey(code: nat)

  /** One entry of the button list: a button and its last reported state. */
  datatype MouseBtn = MouseBtn(button: MouseButton, state: ElementState)

  /** Each button appears at most once in the list. */
  ghost predicate Unique(s: seq<MouseBtn>) {
    forall i, j :: 0 <= i < j < |s| ==> s[i].button != s[j].button
  }

  /** True when no entry of `s` is for `button`. */
  ghost predicate Absent(s: seq<MouseBtn>, button: MouseButton) {
    forall i :: 0 <= i < |s| ==> s[i].button != button
  }

  /** The index `iter().enumerate().find(..)` stops at: the first entry for
      `button`, or None when there is none. */
  function FindButton(s: seq<MouseBtn>, button: MouseButton): (r: Option<nat>)
    ensures r.None? <==> Absent(s, button)
    ensures r.Some? ==> r.value < |s| && s[r.value].button == button
    ensures r.Some? ==> forall j :: 0 <= j < r.value ==> s[j].button != button
  {
    if |s| == 0 then None
    else if s[0].button == button then Some(0)
    else
      match FindButton(s[1..], button)
      case None => None
      case Some(i) => Some(i + 1)
  }

  /** The button list after `set_mouse_state(button, state)`: the state of the
      entry found is overwritten, or a new entry is pushed at the end. */
  function SetButton(s: seq<MouseBtn>, button: MouseButton, state: ElementState): (r: seq<MouseBtn>)
    ensures Absent(s, button) ==> r == s + [MouseBtn(button, state)]
    ensures !Absent(s, button) ==> |r| == |s|
    ensures Unique(s) ==> forall j :: 0 <= j < |s| ==>
      r[j] == (if s[j].button == button then MouseBtn(button, state) else s[j])
  {
    match FindButton(s, button)
    case Some(i) => s[i := s[i].(state := state)]
    case None => s + [MouseBtn(button, state)]
  }

  /** `is_mouse_button_pressed`: the state of the first entry for `button`,
      "not pressed" when there is none. */
  function ButtonPressed(s: seq<MouseBtn>, button: MouseButton): (r: bool)
    ensures Absent(s, button) ==> !r
    ensures Unique(s) ==> (r <==> MouseBtn(button, Pressed) in s)
  {
    match FindButton(s, button)
    case Some(i) => s[i].state == Pressed
    case None => false
  }

  /** `is_key_pressed`: a key never recorded reads as Released. */
  function KeyPressed(keys: map<VirtualKeyCode, ElementState>, key: VirtualKeyCode): (r: bool)
    ensures key !in keys ==> !r
    ensures r <==> key in keys && keys[key] == Pressed
  {
    var state := if key in keys then keys[key] else Released;
    state == Pressed
  }

  /** After `set_mouse_state(b, s)`, `b` reads as pressed exactly when `s` is
      Pressed, and every other button reads as it did before. */
  lemma {:induction false} SetButtonThenPressed(s: seq<MouseBtn>, b: MouseButton, state: ElementState, other: MouseButton)
    ensures ButtonPressed(SetButton(s, b, state), b) == (state == Pressed)
    ensures other != b ==> ButtonPressed(SetButton(s, b, state), other) == ButtonPressed(s, other)
  {
    var r := SetButton(s, b, state);
    match FindButton(s, b)
    case Some(i) =>
      assert r == s[i := s[i].(state := state)];
      assert forall j :: 0 <= j < |s| ==> r[j].button == s[j].button;
      SameButtonsSameFind(s, r, b);
      SameButtonsSameFind(s, r, other);
    case None =>
      assert r == s + [MouseBtn(b, state)];
      FindAfterPush(s, MouseBtn(b, state), b);
      FindAfterPush(s, MouseBtn(b, state), other);
  }

  /** Two lists with the same buttons at the same places are searched alike. */
  lemma {:induction false} SameButtonsSameFind(s: seq<MouseBtn>, t: seq<MouseBtn>, b: MouseButton)
    requires |s| == |t|
    requires forall j :: 0 <= j < |s| ==> s[j].button == t[j].button
    ensures FindButton(s, b) == FindButton(t, b)
  {
    if |s| > 0 && s[0].button != b {
      SameButtonsSameFind(s[1..], t[1..], b);
    }
  }

  /** Pushing an entry does not change what a search already found, and a
      search that found nothing now finds the new entry if it matches. */
  lemma {:induction false} FindAfterPush(s: seq<MouseBtn>, e: MouseBtn, b: MouseButton)
    ensures FindButton(s + [e], b) ==
      match FindButton(s, b)
      case Some(i) => Some(i)
      case None => if e.button == b then Some(|s|) else None
  {
    if |s| > 0 && s[0].button != b {
      assert (s + [e])[1..] == s[1..] + [e];
      FindAfterPush(s[1..], e, b);
    }
  }

  /** `set_mouse_state` keeps every button at most once in the list. */
  lemma SetButtonKeepsUnique(s: seq<MouseBtn>, b: MouseButton, state: ElementState)
    requires Unique(s)
    ensures Unique(SetButton(s, b, state))
  {
    var r := SetButton(s, b, state);
    if Absent(s, b) {
      assert forall i :: 0 <= i < |s| ==> r[i] == s[i];
    } else {
      assert forall i :: 0 <= i < |r| ==> r[i].button == s[i].button;
    }
  }

  /** Setting the same state of the same button twice is the same as once. */
  lemma SetButtonIdempotent(s: seq<MouseBtn>, b: MouseButton, state: ElementState)
    ensures SetButton(SetButton(s, b, state), b, state) == SetButton(s, b, state)
  {
    var r := SetButton(s, b, state);
    match FindButton(s, b)
    case Some(i) =>
      assert forall j :: 0 <= j < |s| ==> r[j].button == s[j].button;
      SameButtonsSameFind(s, r, b);
    case None =>
      FindAfterPush(s, MouseBtn(b, state), b);
  }

  /** `set_key_state` twice with the same state is the same as once, and
      afterwards the key reads as pressed exactly when that state is Pressed. */
  lemma SetKeyIdempotent(keys: map<VirtualKeyCode, ElementState>, k: VirtualKeyCode, state: ElementState)
    ensures keys[k := state][k := state] == keys[k := state]
    ensures KeyPressed(keys[k := state], k) == (state == Pressed)
  {
  }

  /** The tracker's state, updated in place by the event loop's callbacks. */
  class Input {
    var keyStates: map<VirtualKeyCode, ElementState>
    var mouseStates: seq<MouseBtn>
    var mousePosition: Vec2

    ghost predicate Valid()
      reads this
    {
      Unique(mouseStates)
    }

    /** `Input::new`: nothing recorded, cursor at the origin. */
    constructor ()
      ensures Valid()
      ensures keyStates == map[] && mouseStates == [] && mousePosition == Vec2(0.0, 0.0)
    {
      keyStates := map[];
      mouseStates := [];
      mousePosition := Vec2(0.0, 0.0);
    }

    /** Find the entry for `button`; overwrite its state, or push a new entry. */
    method SetMouseState(button: MouseButton, state: ElementState)
      requires Valid()
      modifies this
      ensures Valid()
      ensures mouseStates == SetButton(old(mouseStates), button, state)
      ensures keyStates == old(keyStates) && mousePosition == old(mousePosition)
    {
      var i := 0;
      while i < |mouseStates| && mouseStates[i].button != button
        invariant 0 <= i <= |mouseStates|
        invariant forall j :: 0 <= j < i ==> mouseStates[j].button != button
      {
        i := i + 1;
      }
      SetButtonKeepsUnique(mouseStates, button, state);
      if i < |mouseStates| {
        mouseStates := mouseStates[i := mouseStates[i].(state := state)];
      } else {
        mouseStates := mouseStates + [MouseBtn(button, state)];
      }
    }

    function IsMouseButtonPressed(button: MouseButton): bool
      reads this
    {
      ButtonPressed(mouseStates, button)
    }

    method SetMousePosition(x: real, y: real)
      modifies this
      ensures mousePosition == Vec2(x, y)
      ensures keyStates == old(keyStates) && mouseStates == old(mouseStates)
    {
      mousePosition := mousePosition.(x := x);
      mousePosition := mousePosition.(y := y);
    }

    function GetMousePosition(): Vec2
      reads this
    {
      mousePosition
    }

    /** A HashMap insert: the key's state is overwritten or added. */
    method SetKeyState(keyCode: VirtualKeyCode, state: ElementState)
      modifies this
      ensures keyStates == old(keyStates)[keyCode := state]
      ensures mouseStates == old(mouseStates) && mousePosition == old(mousePosition)
    {
      keyStates := keyStates[keyCode := state];
    }

    function IsKeyPressed(key: VirtualKeyCode): bool
      reads this
    {
      KeyPressed(keyStates, key)
    }
  }

  /** A fresh tracker reads every key and button as not pressed and the
      cursor as (0, 0). */
  method FreshInputReadsNothing(key: VirtualKeyCode, button: MouseButton)
    returns (keyDown: bool, buttonDown: bool, position: Vec2)
    ensures !keyDown && !buttonDown && position == Vec2(0.0, 0.0)
  {
    var input := new Input();
    keyDown := input.IsKeyPressed(key);
    buttonDown := input.IsMouseButtonPressed(button);
    position := input.GetMousePosition();
  }

  /** `get_mouse_position` gives back the last `set_mouse_position`, and key
      and button events after the move do not disturb it. */
  method PositionReadBack(x: real, y: real, key: VirtualKeyCode, button: MouseButton)
    returns (position: Vec2)
    ensures position == Vec2(x, y)
  {
    var input := new Input();
    input.SetMousePosition(x, y);
    input.SetKeyState(key, Pressed);
    input.SetMouseState(button, Pressed);
    position := input.GetMousePosition();
  }

  /** Pressing a key twice and releasing it once leaves it not pressed;
      moving the cursor in between changes no key state. */
  method PressTwiceReleaseOnce(key: VirtualKeyCode, x: real, y: real)
    returns (keyDown: bool, position: Vec2)
    ensures !keyDown && position == Vec2(x, y)
  {
    var input := new Input();
    input.SetKeyState(key, Pressed);
    input.SetKeyState(key, Pressed);
    input.SetMousePosition(x, y);
    input.SetKeyState(key, Released);
    keyDown := input.IsKeyPressed(key);
    position := input.GetMousePosition();
  }

  /** Pressing a button twice and releasing it once leaves one entry for it,
      not pressed. */
  method ButtonPressTwiceReleaseOnce(button: MouseButton)
    returns (buttonDown: bool, entries: nat)
    ensures !buttonDown && entries == 1
  {
    var input := new Input();
    input.SetMouseState(button, Pressed);
    input.SetMouseState(button, Pressed);
    input.SetMouseState(button, Released);
    buttonDown := input.IsMouseButtonPressed(button);
    entries := |input.mouseStates|;
  }
}
