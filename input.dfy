/**
 Input edge detection. Each frame's input is a set of bit masks (keys in 64
 bits, mouse buttons in 8, gamepad buttons in 16); a control is down when its
 bit is set in the current mask, pressed when it is set now but was not in
 the previous frame, and released when it was set before but is not now.

 Polling the window system for the masks is outside the model: `Refresh`
 receives the freshly polled state as a parameter. Mouse position and
 gamepad axes are floating point and kept only as opaque reals.
 */
module Input {

  const KeyCnt := 59
  const MouseButtonCnt := 3
  const GamepadButtonCnt := 15
  const GamepadAxisCnt := 6

  /** Key codes by enum position: Space, Num0..Num9, A..Z, Escape, Enter,
      Tab, Right, Left, Down, Up, F1..F12, LeftShift, LeftControl, LeftAlt. */
  newtype KeyCode = k: int | 0 <= k < KeyCnt

  /** Left, Right, Middle. */
  newtype MouseButtonCode = b: int | 0 <= b < MouseButtonCnt

  /** A, B, X, Y, LeftBumper, RightBumper, Back, Start, Guide, LeftThumb,
      RightThumb, DpadUp, DpadRight, DpadDown, DpadLeft. */
  newtype GamepadButtonCode = b: int | 0 <= b < GamepadButtonCnt

  /** The bit of a key in the 64-bit key mask. */
  function KeyBit(k: KeyCode): bv64
  {
    (1 as bv64) << (k as int as bv6)
  }

  /** The bit of a mouse button in the 8-bit mouse mask. */
  function MouseButtonBit(b: MouseButtonCode): bv8
  {
    (1 as bv8) << (b as int as bv3)
  }

  /** The bit of a gamepad button in the 16-bit gamepad mask. */
  function GamepadButtonBit(b: GamepadButtonCode): bv16
  {
    (1 as bv16) << (b as int as bv4)
  }

  /** Every key has its own bit, none shifted out of the 64-bit mask. */
  lemma KeyBitsFit(k1: KeyCode, k2: KeyCode)
    ensures KeyBit(k1) != 0
    ensures k1 != k2 ==> KeyBit(k1) & KeyBit(k2) == 0
  {
    if k1 != k2 {
      ShiftAmountRoundTrip6(k1 as int);
      ShiftAmountRoundTrip6(k2 as int);
      ShiftedBitsDisjoint64(k1 as int as bv6, k2 as int as bv6);
    }
  }

  /** Every mouse button has its own bit in the 8-bit mask. */
  lemma MouseButtonBitsFit(b1: MouseButtonCode, b2: MouseButtonCode)
    ensures MouseButtonBit(b1) != 0
    ensures b1 != b2 ==> MouseButtonBit(b1) & MouseButtonBit(b2) == 0
  {
    if b1 != b2 {
      ShiftAmountRoundTrip3(b1 as int);
      ShiftAmountRoundTrip3(b2 as int);
    }
  }

  /** Every gamepad button has its own bit in the 16-bit mask. */
  lemma GamepadButtonBitsFit(b1: GamepadButtonCode, b2: GamepadButtonCode)
    ensures GamepadButtonBit(b1) != 0
    ensures b1 != b2 ==> GamepadButtonBit(b1) & GamepadButtonBit(b2) == 0
  {
    if b1 != b2 {
      ShiftAmountRoundTrip4(b1 as int);
      ShiftAmountRoundTrip4(b2 as int);
    }
  }

  /** Bit `k` of a mask read by shifting it down to position 0, independently
      of the `1 << k` masks the queries test against. */
  predicate KeyHeld(bits: bv64, k: KeyCode)
  {
    (bits >> (k as int as bv6)) & 1 == 1
  }

  predicate MouseButtonHeld(bits: bv8, b: MouseButtonCode)
  {
    (bits >> (b as int as bv3)) & 1 == 1
  }

  predicate GamepadButtonHeld(bits: bv16, b: GamepadButtonCode)
  {
    (bits >> (b as int as bv4)) & 1 == 1
  }

  lemma ShiftAmountRoundTrip6(x: int)
    requires 0 <= x < 64
    ensures (x as bv6) as int == x
  {
  }

  lemma ShiftAmountRoundTrip4(x: int)
    requires 0 <= x < 16
    ensures (x as bv4) as int == x
  {
  }

  lemma ShiftAmountRoundTrip3(x: int)
    requires 0 <= x < 8
    ensures (x as bv3) as int == x
  {
  }

  lemma ShiftedBitsDisjoint64(a: bv6, b: bv6)
    requires a != b
    ensures ((1 as bv64) << a) & ((1 as bv64) << b) == 0
  {
  }

  datatype GamepadState = GamepadState(
    connected: bool,
    glfwJoystickIndex: int,
    buttonsDownBits: bv16,
    axisValues: seq<real>)

  datatype InputState = InputState(
    keysDownBits: bv64,
    mouseButtonsDownBits: bv8,
    mouseX: real,
    mouseY: real,
    mouseScroll: int,
    gamepadState: GamepadState)

  /** The zero-initialised state both fields of a manager start from. */
  const ZeroInputState := InputState(0, 0, 0.0, 0.0, 0, GamepadState(false, 0, 0, [0.0, 0.0, 0.0, 0.0, 0.0, 0.0]))

  class InputManager {
    var state: InputState
    var stateLast: InputState

    constructor ()
      ensures state == ZeroInputState && stateLast == ZeroInputState
    {
      state := ZeroInputState;
      stateLast := ZeroInputState;
    }

    /** `refresh`: the current state becomes the last one and the freshly
        polled state becomes the current one. */
    method Refresh(polled: InputState)
      modifies this
      ensures stateLast == old(state) && state == polled
    {
      stateLast := state;
      state := polled;
    }

    /** `is_key_down`: bit `k` of the current key mask. */
    function IsKeyDown(k: KeyCode): (r: bool)
      reads this
      ensures r == KeyHeld(state.keysDownBits, k)
    {
      state.keysDownBits & KeyBit(k) != 0
    }

    /** `is_key_pressed`: down now and not down in the last frame. */
    function IsKeyPressed(k: KeyCode): (r: bool)
      reads this
      ensures r <==> KeyHeld(state.keysDownBits, k) && !KeyHeld(stateLast.keysDownBits, k)
      ensures state.keysDownBits == stateLast.keysDownBits ==> !r
    {
      (state.keysDownBits & KeyBit(k) != 0) && !(stateLast.keysDownBits & KeyBit(k) != 0)
    }

    /** `is_key_released`: not down now but down in the last frame. */
    function IsKeyReleased(k: KeyCode): (r: bool)
      reads this
      ensures r <==> !KeyHeld(state.keysDownBits, k) && KeyHeld(stateLast.keysDownBits, k)
      ensures r ==> !IsKeyPressed(k)
      ensures state.keysDownBits == stateLast.keysDownBits ==> !r
    {
      !(state.keysDownBits & KeyBit(k) != 0) && (stateLast.keysDownBits & KeyBit(k) != 0)
    }

    /** `is_mouse_button_down`: bit `b` of the current mouse mask. */
    function IsMouseButtonDown(b: MouseButtonCode): (r: bool)
      reads this
      ensures r == MouseButtonHeld(state.mouseButtonsDownBits, b)
    {
      state.mouseButtonsDownBits & MouseButtonBit(b) != 0
    }

    /** `is_mouse_button_pressed`: down now and not down in the last frame. */
    function IsMouseButtonPressed(b: MouseButtonCode): (r: bool)
      reads this
      ensures r <==> MouseButtonHeld(state.mouseButtonsDownBits, b) && !MouseButtonHeld(stateLast.mouseButtonsDownBits, b)
      ensures state.mouseButtonsDownBits == stateLast.mouseButtonsDownBits ==> !r
    {
      (state.mouseButtonsDownBits & MouseButtonBit(b) != 0) && !(stateLast.mouseButtonsDownBits & MouseButtonBit(b) != 0)
    }

    /** `is_mouse_button_released`: not down now but down in the last frame. */
    function IsMouseButtonReleased(b: MouseButtonCode): (r: bool)
      reads this
      ensures r <==> !MouseButtonHeld(state.mouseButtonsDownBits, b) && MouseButtonHeld(stateLast.mouseButtonsDownBits, b)
      ensures r ==> !IsMouseButtonPressed(b)
      ensures state.mouseButtonsDownBits == stateLast.mouseButtonsDownBits ==> !r
    {
      !(state.mouseButtonsDownBits & MouseButtonBit(b) != 0) && (stateLast.mouseButtonsDownBits & MouseButtonBit(b) != 0)
    }

    /** `is_gamepad_button_down`: bit `b` of the current gamepad mask. */
    function IsGamepadButtonDown(b: GamepadButtonCode): (r: bool)
      reads this
      ensures r == GamepadButtonHeld(state.gamepadState.buttonsDownBits, b)
    {
      state.gamepadState.buttonsDownBits & GamepadButtonBit(b) != 0
    }

    /** `is_gamepad_button_pressed`: down now and not down in the last frame. */
    function IsGamepadButtonPressed(b: GamepadButtonCode): (r: bool)
      reads this
      ensures r <==> (GamepadButtonHeld(state.gamepadState.buttonsDownBits, b)
                      && !GamepadButtonHeld(stateLast.gamepadState.buttonsDownBits, b))
      ensures state.gamepadState.buttonsDownBits == stateLast.gamepadState.buttonsDownBits ==> !r
    {
      (state.gamepadState.buttonsDownBits & GamepadButtonBit(b) != 0)
        && !(stateLast.gamepadState.buttonsDownBits & GamepadButtonBit(b) != 0)
    }

    /** `is_gamepad_button_released`: not down now but down in the last frame. */
    function IsGamepadButtonReleased(b: GamepadButtonCode): (r: bool)
      reads this
      ensures r <==> (!GamepadButtonHeld(state.gamepadState.buttonsDownBits, b)
                      && GamepadButtonHeld(stateLast.gamepadState.buttonsDownBits, b))
      ensures r ==> !IsGamepadButtonPressed(b)
      ensures state.gamepadState.buttonsDownBits == stateLast.gamepadState.buttonsDownBits ==> !r
    {
      !(state.gamepadState.buttonsDownBits & GamepadButtonBit(b) != 0)
        && (stateLast.gamepadState.buttonsDownBits & GamepadButtonBit(b) != 0)
    }
  }

  /** A key held down across two refreshes is reported pressed after the
      first and not after the second; once let go it is reported released
      exactly once. The queries' answers after each refresh are returned. */
  method HeldKeyEdges(m: InputManager, k: KeyCode, down: InputState, up: InputState)
    returns (pressedFirst: bool, pressedHeld: bool, downHeld: bool, releasedFirst: bool, releasedIdle: bool)
    requires KeyHeld(down.keysDownBits, k) && !KeyHeld(up.keysDownBits, k)
    requires m.state == up
    modifies m
    ensures pressedFirst && !pressedHeld && downHeld
    ensures releasedFirst && !releasedIdle
    ensures m.state == up && m.stateLast == up
  {
    m.Refresh(down);
    pressedFirst := m.IsKeyPressed(k);
    m.Refresh(down);
    pressedHeld := m.IsKeyPressed(k);
    downHeld := m.IsKeyDown(k);
    m.Refresh(up);
    releasedFirst := m.IsKeyReleased(k);
    m.Refresh(up);
    releasedIdle := m.IsKeyReleased(k);
  }
}
