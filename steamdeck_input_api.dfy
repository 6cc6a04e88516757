/** The Steam Deck joystick facade: a `Joystick` object owning the two state
    dictionaries, an `Update` that drains the event queue into them, and
    getters that read fixed indices out of them under human-readable labels. */
module SteamdeckInputApi {
  import opened Events
  import opened StateReducer

  /** Default domain sizes of a `Joystick`. */
  const NUM_AXES_TO_TRACK: int := 6
  const NUM_BUTTONS_TO_TRACK: int := 20

  /** Where a labelled control lives: an axis index or a button index. */
  datatype Control = AxisAt(index: int) | ButtonAt(index: int)

  /** `d.get(k, 0)`. */
  function Get(d: map<int, int>, k: int): (v: int)
    ensures k in d ==> v == d[k]
    ensures k !in d ==> v == 0
  {
    if k in d then d[k] else 0
  }

  /** The current value of a control, 0 when its index is not tracked. */
  function ValueOf(s: Tables, c: Control): int
  {
    match c
    case AxisAt(i) => Get(s.axes, i)
    case ButtonAt(i) => Get(s.buttons, i)
  }

  /** The control is tracked by the tables `s`. */
  predicate Tracked(s: Tables, c: Control)
  {
    match c
    case AxisAt(i) => i in s.axes
    case ButtonAt(i) => i in s.buttons
  }

  /** The table a control lives in. */
  function KindOf(c: Control): Kind
  {
    if c.AxisAt? then Axes else Buttons
  }

  /** A group of labelled controls read out of the tables: every name of the
      layout, with its control's value. */
  function Project(s: Tables, layout: map<string, Control>): (r: map<string, int>)
    ensures r.Keys == layout.Keys
    ensures forall name :: name in r ==> r[name] == ValueOf(s, layout[name])
  {
    map name | name in layout :: ValueOf(s, layout[name])
  }

  /** The Steam Deck layout, one table per getter. */
  const DPAD_LAYOUT: map<string, Control> :=
    map["Up" := ButtonAt(11), "Down" := ButtonAt(12), "Left" := ButtonAt(13), "Right" := ButtonAt(14)]
  const FACE_BUTTONS_LAYOUT: map<string, Control> :=
    map["A" := ButtonAt(0), "B" := ButtonAt(1), "X" := ButtonAt(2), "Y" := ButtonAt(3)]
  const SHOULDER_LAYOUT: map<string, Control> :=
    map["L1" := ButtonAt(9), "R1" := ButtonAt(10), "L2 Axis" := AxisAt(4), "R2 Axis" := AxisAt(5)]
  const JOYSTICK_LAYOUT: map<string, Control> :=
    map["LX" := AxisAt(0), "LY" := AxisAt(1), "RX" := AxisAt(2), "RY" := AxisAt(3),
        "L3" := ButtonAt(7), "R3" := ButtonAt(8)]
  const BACK_BUTTONS_LAYOUT: map<string, Control> :=
    map["L4" := ButtonAt(17), "R4" := ButtonAt(16), "L5" := ButtonAt(19), "R5" := ButtonAt(18)]

  const LAYOUTS: seq<map<string, Control>> :=
    [DPAD_LAYOUT, FACE_BUTTONS_LAYOUT, SHOULDER_LAYOUT, JOYSTICK_LAYOUT, BACK_BUTTONS_LAYOUT]

  class Joystick {
    /** The domain sizes given at construction; the dictionaries' key sets never change. */
    ghost const numAxes: int
    ghost const numButtons: int

    var axisValues: map<int, int>
    var buttonValues: map<int, int>

    ghost predicate Valid()
      reads this
    {
      && axisValues.Keys == IndexRange(numAxes)
      && buttonValues.Keys == IndexRange(numButtons)
      && InRange(FullState())
    }

    /** Builds the two dictionaries `{i: 0 for i in range(n)}`; opening the
        device is not part of this model. */
    constructor (numAxes: int, numButtons: int)
      ensures Valid()
      ensures this.numAxes == numAxes && this.numButtons == numButtons
      ensures FullState() == Tables(ZeroTable(numAxes), ZeroTable(numButtons))
    {
      this.numAxes := numAxes;
      this.numButtons := numButtons;
      axisValues := ZeroTable(numAxes);
      buttonValues := ZeroTable(numButtons);
    }

    /** A snapshot of both dictionaries. It is a value, so nothing done to
        the joystick later changes it. */
    function FullState(): (s: Tables)
      reads this
      ensures TableOf(s, Axes) == axisValues && TableOf(s, Buttons) == buttonValues
    {
      Tables(axisValues, buttonValues)
    }

    /** Takes events off `queue` and applies them until the queue is empty
        (`running` is true) or a `Quit` has been taken off (`running` is
        false, and `rest` is what was behind the `Quit`). */
    method Update(queue: seq<Event>) returns (running: bool, rest: seq<Event>)
      requires Valid()
      modifies this
      ensures Valid()
      ensures PollOutcome(FullState(), running, rest) == Reduce(old(FullState()), queue)
    {
      var i := 0;
      while i < |queue|
        invariant 0 <= i <= |queue|
        invariant Quit !in queue[..i]
        invariant FullState() == ApplyAll(old(FullState()), queue[..i])
        invariant Valid()
      {
        var event := queue[i];
        assert queue[..i + 1] == queue[..i] + [event];
        i := i + 1;
        match event
        case AxisMotion(axis, value) =>
          if axis in axisValues {
            axisValues := axisValues[axis := value];
          }
        case Button(button, state) =>
          if button in buttonValues {
            buttonValues := buttonValues[button := state];
          }
        case Quit =>
          FirstQuitAt(queue, i - 1);
          return false, queue[i..];
        case Other =>
      }
      assert queue[..i] == queue;
      return true, [];
    }

    function DpadState(): (r: map<string, int>)
      reads this
      ensures r == Project(FullState(), DPAD_LAYOUT)
    {
      map["Up" := Get(buttonValues, 11),
          "Down" := Get(buttonValues, 12),
          "Left" := Get(buttonValues, 13),
          "Right" := Get(buttonValues, 14)]
    }

    function FaceButtons(): (r: map<string, int>)
      reads this
      ensures r == Project(FullState(), FACE_BUTTONS_LAYOUT)
    {
      map["A" := Get(buttonValues, 0),
          "B" := Get(buttonValues, 1),
          "X" := Get(buttonValues, 2),
          "Y" := Get(buttonValues, 3)]
    }

    function ShoulderState(): (r: map<string, int>)
      reads this
      ensures r == Project(FullState(), SHOULDER_LAYOUT)
    {
      map["L1" := Get(buttonValues, 9),
          "R1" := Get(buttonValues, 10),
          "L2 Axis" := Get(axisValues, 4),
          "R2 Axis" := Get(axisValues, 5)]
    }

    function JoystickState(): (r: map<string, int>)
      reads this
      ensures r == Project(FullState(), JOYSTICK_LAYOUT)
    {
      map["LX" := Get(axisValues, 0),
          "LY" := Get(axisValues, 1),
          "RX" := Get(axisValues, 2),
          "RY" := Get(axisValues, 3),
          "L3" := Get(buttonValues, 7),
          "R3" := Get(buttonValues, 8)]
    }

    function BackButtons(): (r: map<string, int>)
      reads this
      ensures r == Project(FullState(), BACK_BUTTONS_LAYOUT)
    {
      map["L4" := Get(buttonValues, 17),
          "R4" := Get(buttonValues, 16),
          "L5" := Get(buttonValues, 19),
          "R5" := Get(buttonValues, 18)]
    }
  }

  /** A snapshot taken before an `Update` still shows the state of that
      moment afterwards, while the joystick moves on. */
  method SnapshotSurvivesUpdate(j: Joystick, queue: seq<Event>) returns (snapshot: Tables, running: bool)
    requires j.Valid()
    modifies j
    ensures j.Valid()
    ensures snapshot == old(j.FullState())
    ensures j.FullState() == Reduce(snapshot, queue).tables
    ensures running <==> Quit !in queue
  {
    snapshot := j.FullState();
    var rest;
    running, rest := j.Update(queue);
  }

  /** With the default domain sizes every control of every layout is
      tracked, so no getter falls back to its default. */
  lemma DefaultDomainCoversLayouts(s: Tables)
    requires s.axes.Keys == IndexRange(NUM_AXES_TO_TRACK)
    requires s.buttons.Keys == IndexRange(NUM_BUTTONS_TO_TRACK)
    ensures forall g, name :: 0 <= g < |LAYOUTS| && name in LAYOUTS[g] ==> Tracked(s, LAYOUTS[g][name])
  {
  }

  /** A control whose index is not tracked always reads 0, whatever events arrive. */
  lemma UntrackedReadsZero(s: Tables, queue: seq<Event>, layout: map<string, Control>, name: string)
    requires name in layout && !Tracked(s, layout[name])
    ensures Project(Reduce(s, queue).tables, layout)[name] == 0
  {
  }

  /** After a poll, a labelled control shows the value of the last event aimed
      at its index before the first `Quit`. */
  lemma GetterShowsLastWrite(s: Tables, queue: seq<Event>, layout: map<string, Control>, name: string, j: nat)
    requires name in layout && Tracked(s, layout[name])
    requires j < QuitPosition(queue) && Writes(queue[j], KindOf(layout[name]), layout[name].index)
    requires forall i :: j < i < QuitPosition(queue) ==> !Writes(queue[i], KindOf(layout[name]), layout[name].index)
    ensures Project(Reduce(s, queue).tables, layout)[name] == Payload(queue[j])
  {
    ReduceLastWriteWins(s, queue, KindOf(layout[name]), layout[name].index, j);
  }

  /** With only button 11 pressed, the D-pad reads Up and nothing else. */
  lemma DpadReadsPressedUp(s: Tables)
    requires s.buttons == ZeroTable(NUM_BUTTONS_TO_TRACK)[11 := 1]
    ensures Project(s, DPAD_LAYOUT) == map["Up" := 1, "Down" := 0, "Left" := 0, "Right" := 0]
  {
  }
}
