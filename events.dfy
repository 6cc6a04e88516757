/** Raw joystick events as the SDL event queue delivers them, and the two
    state tables (axis positions, button states) they are folded into. */
module Events {

  /** SDL's `Uint8`: the index carried by axis and button events, and a button's state. */
  type Uint8 = x: int | 0 <= x < 0x100

  /** SDL's `Sint16`: the position carried by an axis-motion event. */
  type Sint16 = x: int | -0x8000 <= x < 0x8000

  /** One polled event. Button-down and button-up events are handled alike by the
      reducer, so both are `Button`; every event type the reducer does not test
      for is `Other`. */
  datatype Event =
    | AxisMotion(axis: Uint8, value: Sint16)  // SDL_JOYAXISMOTION
    | Button(button: Uint8, state: Uint8)     // SDL_JOYBUTTONDOWN, SDL_JOYBUTTONUP
    | Quit                                    // SDL_QUIT
    | Other

  /** The two dictionaries of controller state, as a value: axis index to
      position, button index to state. A `Tables` value is also what a snapshot
      (`full_state`) hands out, so later updates cannot reach into it. */
  datatype Tables = Tables(axes: map<int, int>, buttons: map<int, int>)

  /** The indices `range(n)` produces: none when `n` is not positive. */
  function IndexRange(n: int): (s: set<int>)
    ensures forall i :: i in s <==> 0 <= i < n
    decreases n
  {
    if n <= 0 then {} else IndexRange(n - 1) + {n - 1}
  }

  /** The dictionary `{i: 0 for i in range(n)}`. */
  function ZeroTable(n: int): (m: map<int, int>)
    ensures m.Keys == IndexRange(n)
    ensures forall k :: k in m ==> m[k] == 0
  {
    map i | i in IndexRange(n) :: 0
  }

  /** A freshly built table has exactly `n` entries (none for `n <= 0`). */
  lemma {:induction false} ZeroTableSize(n: int)
    ensures |ZeroTable(n)| == if n < 0 then 0 else n
  {
    if n > 0 {
      ZeroTableSize(n - 1);
      assert ZeroTable(n).Keys == ZeroTable(n - 1).Keys + {n - 1};
    } else {
      assert ZeroTable(n).Keys == {};
    }
  }
}
