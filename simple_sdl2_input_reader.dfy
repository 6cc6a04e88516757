/** The plain-script reader: two dictionaries created by `main` and handed by
    reference to `PollJoystickEvents`, which drains the event queue into them
    and stops the program on a quit event. */
module SimpleSdl2InputReader {
  import opened Events
  import opened StateReducer

  /** Domain sizes of the two dictionaries `main` creates. */
  const NUM_AXES: int := 6
  const NUM_BUTTONS: int := 20

  /** A dictionary from int to int, held by reference: whoever calls
      `PollJoystickEvents` sees the changes it makes. */
  class IntDict {
    var entries: map<int, int>

    /** `{i: 0 for i in range(n)}` */
    constructor Zeros(n: int)
      ensures entries == ZeroTable(n)
    {
      entries := ZeroTable(n);
    }
  }

  /** The state dictionaries as `main` builds them before its loop. */
  method InitStateTables() returns (axisValues: IntDict, buttonValues: IntDict)
    ensures fresh(axisValues) && fresh(buttonValues)
    ensures axisValues.entries.Keys == IndexRange(NUM_AXES)
    ensures buttonValues.entries.Keys == IndexRange(NUM_BUTTONS)
    ensures forall k :: k in axisValues.entries ==> axisValues.entries[k] == 0
    ensures forall k :: k in buttonValues.entries ==> buttonValues.entries[k] == 0
  {
    axisValues := new IntDict.Zeros(NUM_AXES);
    buttonValues := new IntDict.Zeros(NUM_BUTTONS);
  }

  /** Takes events off `queue` and applies them to the two dictionaries until
      the queue is empty (`exited` is false) or a `Quit` is taken off
      (`exited` is true: the point where the script ends the process). */
  method PollJoystickEvents(queue: seq<Event>, axisValues: IntDict, buttonValues: IntDict) returns (exited: bool)
    requires axisValues != buttonValues
    modifies axisValues, buttonValues
    ensures
      var r := Reduce(Tables(old(axisValues.entries), old(buttonValues.entries)), queue);
      && axisValues.entries == r.tables.axes
      && buttonValues.entries == r.tables.buttons
      && exited == !r.running
  {
    ghost var start := Tables(axisValues.entries, buttonValues.entries);
    var i := 0;
    while i < |queue|
      invariant 0 <= i <= |queue|
      invariant Quit !in queue[..i]
      invariant Tables(axisValues.entries, buttonValues.entries) == ApplyAll(start, queue[..i])
    {
      var event := queue[i];
      assert queue[..i + 1] == queue[..i] + [event];
      i := i + 1;
      match event
      case AxisMotion(axis, value) =>
        if axis in axisValues.entries {
          axisValues.entries := axisValues.entries[axis := value];
        }
      case Button(button, state) =>
        if button in buttonValues.entries {
          buttonValues.entries := buttonValues.entries[button := state];
        }
      case Quit =>
        FirstQuitAt(queue, i - 1);
        return true;
      case Other =>
    }
    assert queue[..i] == queue;
    return false;
  }
}
