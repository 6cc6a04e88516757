/** The input-state reducer as pure functions: what one polled batch of events
    does to the two state tables. Both polling loops (`Joystick.update` and
    `poll_joystick_events`) are proved against `Reduce`. */
module StateReducer {
  import opened Events

  /** Which of the two tables an event or a question is about. */
  datatype Kind = Axes | Buttons

  function TableOf(t: Tables, kind: Kind): map<int, int>
  {
    if kind == Axes then t.axes else t.buttons
  }

  /** Axis events belong to the axis table, button events to the button table;
      `Quit` and `Other` belong to neither. */
  predicate OfKind(e: Event, kind: Kind)
  {
    if kind == Axes then e.AxisMotion? else e.Button?
  }

  /** The index an axis or button event targets. */
  function Index(e: Event): int
    requires e.AxisMotion? || e.Button?
  {
    if e.AxisMotion? then e.axis else e.button
  }

  /** The value an axis or button event carries. */
  function Payload(e: Event): int
    requires e.AxisMotion? || e.Button?
  {
    if e.AxisMotion? then e.value else e.state
  }

  /** `e` is an event of kind `kind` aimed at index `k`. */
  predicate Writes(e: Event, kind: Kind, k: int)
  {
    OfKind(e, kind) && Index(e) == k
  }

  /** Every axis position fits SDL's Sint16 and every button state SDL's Uint8. */
  predicate InRange(t: Tables)
  {
    && (forall k :: k in t.axes ==> -0x8000 <= t.axes[k] < 0x8000)
    && (forall k :: k in t.buttons ==> 0 <= t.buttons[k] < 0x100)
  }

  /** The effect of one polled event: an axis or button event overwrites its
      index if that index is already a key of its table; anything else is
      ignored. */
  function Step(t: Tables, e: Event): (r: Tables)
    ensures r.axes.Keys == t.axes.Keys && r.buttons.Keys == t.buttons.Keys
    ensures !e.AxisMotion? ==> r.axes == t.axes
    ensures !e.Button? ==> r.buttons == t.buttons
    ensures e.AxisMotion? && e.axis !in t.axes ==> r == t
    ensures e.Button? && e.button !in t.buttons ==> r == t
    ensures InRange(t) ==> InRange(r)
  {
    match e
    case AxisMotion(a, v) => if a in t.axes then t.(axes := t.axes[a := v]) else t
    case Button(b, s) => if b in t.buttons then t.(buttons := t.buttons[b := s]) else t
    case Quit => t
    case Other => t
  }

  /** The events of `es` applied in order, first to last. */
  function ApplyAll(t: Tables, es: seq<Event>): (r: Tables)
    ensures r.axes.Keys == t.axes.Keys && r.buttons.Keys == t.buttons.Keys
    ensures InRange(t) ==> InRange(r)
    decreases |es|
  {
    if es == [] then t else Step(ApplyAll(t, es[..|es| - 1]), es[|es| - 1])
  }

  /** The position of the first `Quit` in the queue, or its length if there is none. */
  function QuitPosition(es: seq<Event>): (k: nat)
    ensures k <= |es|
    ensures Quit !in es[..k]
    ensures k < |es| ==> es[k] == Quit
    decreases |es|
  {
    if es == [] || es[0] == Quit then 0
    else
      var k' := QuitPosition(es[1..]);
      assert es[..k' + 1] == [es[0]] + es[1..][..k'];
      k' + 1
  }

  /** What one poll of the queue leaves behind: the new tables, whether the
      program should keep running, and the events still queued. */
  datatype PollOutcome = PollOutcome(tables: Tables, running: bool, rest: seq<Event>)

  /** One poll: events are taken off the queue and applied in order until the
      queue is empty or a `Quit` is taken off; the events behind that `Quit`
      stay queued and unapplied. */
  function Reduce(t: Tables, queue: seq<Event>): (r: PollOutcome)
    ensures r.running <==> Quit !in queue
    ensures r.running ==> r.rest == []
    ensures r.tables.axes.Keys == t.axes.Keys && r.tables.buttons.Keys == t.buttons.Keys
    ensures InRange(t) ==> InRange(r.tables)
  {
    var k := QuitPosition(queue);
    if k == |queue| then
      assert queue[..k] == queue;
      PollOutcome(ApplyAll(t, queue), true, [])
    else
      PollOutcome(ApplyAll(t, queue[..k]), false, queue[k + 1..])
  }

  /** A `Quit` with no `Quit` before it is the first one. */
  lemma FirstQuitAt(es: seq<Event>, k: nat)
    requires k < |es| && es[k] == Quit
    requires Quit !in es[..k]
    ensures QuitPosition(es) == k
  {
  }

  /** Every poll splits the queue at its first `Quit`: the events before it
      are applied, and everything behind it is handed back untouched. */
  lemma ReduceSplitsAtFirstQuit(t: Tables, before: seq<Event>, after: seq<Event>)
    requires Quit !in before
    ensures Reduce(t, before + [Quit] + after) == PollOutcome(ApplyAll(t, before), false, after)
  {
    var es := before + [Quit] + after;
    assert es[..|before|] == before;
    FirstQuitAt(es, |before|);
    assert es[|before| + 1..] == after;
  }

  /** A queue without `Quit` is drained and applied in full. */
  lemma ReduceWithoutQuit(t: Tables, queue: seq<Event>)
    requires Quit !in queue
    ensures Reduce(t, queue) == PollOutcome(ApplyAll(t, queue), true, [])
  {
  }

  /** Last write wins: a tracked index ends up holding the value of the last
      event aimed at it. */
  lemma {:induction false} LastWriteWins(t: Tables, es: seq<Event>, kind: Kind, k: int, j: nat)
    requires k in TableOf(t, kind)
    requires j < |es| && Writes(es[j], kind, k)
    requires forall i :: j < i < |es| ==> !Writes(es[i], kind, k)
    ensures TableOf(ApplyAll(t, es), kind)[k] == Payload(es[j])
    decreases |es|
  {
    var n := |es| - 1;
    if j < n {
      var init := es[..n];
      forall i | j < i < |init|
        ensures !Writes(init[i], kind, k)
      {
        assert init[i] == es[i];
      }
      LastWriteWins(t, init, kind, k, j);
    }
  }

  /** An index that no event aims at keeps its value. */
  lemma {:induction false} Untouched(t: Tables, es: seq<Event>, kind: Kind, k: int)
    requires k in TableOf(t, kind)
    requires forall i :: 0 <= i < |es| ==> !Writes(es[i], kind, k)
    ensures TableOf(ApplyAll(t, es), kind)[k] == TableOf(t, kind)[k]
    decreases |es|
  {
    if es != [] {
      var init := es[..|es| - 1];
      forall i | 0 <= i < |init|
        ensures !Writes(init[i], kind, k)
      {
        assert init[i] == es[i];
      }
      Untouched(t, init, kind, k);
    }
  }

  /** A batch with no event of one kind leaves that kind's table as it was:
      axis events never change the button table, button events never change
      the axis table. */
  lemma {:induction false} OtherKindUntouched(t: Tables, es: seq<Event>, kind: Kind)
    requires forall i :: 0 <= i < |es| ==> !OfKind(es[i], kind)
    ensures TableOf(ApplyAll(t, es), kind) == TableOf(t, kind)
    decreases |es|
  {
    if es != [] {
      var init := es[..|es| - 1];
      forall i | 0 <= i < |init|
        ensures !OfKind(init[i], kind)
      {
        assert init[i] == es[i];
      }
      OtherKindUntouched(t, init, kind);
    }
  }

  /** The event changes nothing: it aims at an index outside its table's
      domain, or it is neither an axis nor a button event. */
  predicate Ignored(t: Tables, e: Event)
  {
    match e
    case AxisMotion(a, _) => a !in t.axes
    case Button(b, _) => b !in t.buttons
    case Quit => true
    case Other => true
  }

  /** A batch of out-of-domain and foreign events leaves both tables as they were. */
  lemma {:induction false} IgnoredEventsChangeNothing(t: Tables, es: seq<Event>)
    requires forall i :: 0 <= i < |es| ==> Ignored(t, es[i])
    ensures ApplyAll(t, es) == t
    decreases |es|
  {
    if es != [] {
      var init := es[..|es| - 1];
      forall i | 0 <= i < |init|
        ensures Ignored(t, init[i])
      {
        assert init[i] == es[i];
      }
      IgnoredEventsChangeNothing(t, init);
    }
  }

  /** Last write wins over a whole poll: the value a tracked index holds
      afterwards is the one carried by the last event aimed at it before the
      first `Quit`. */
  lemma ReduceLastWriteWins(t: Tables, queue: seq<Event>, kind: Kind, k: int, j: nat)
    requires k in TableOf(t, kind)
    requires j < QuitPosition(queue) && Writes(queue[j], kind, k)
    requires forall i :: j < i < QuitPosition(queue) ==> !Writes(queue[i], kind, k)
    ensures TableOf(Reduce(t, queue).tables, kind)[k] == Payload(queue[j])
  {
    var q := QuitPosition(queue);
    var prefix := queue[..q];
    if q == |queue| {
      assert prefix == queue;
    }
    forall i | j < i < |prefix|
      ensures !Writes(prefix[i], kind, k)
    {
      assert prefix[i] == queue[i];
    }
    LastWriteWins(t, prefix, kind, k, j);
  }

  /** An index that no event before the first `Quit` aims at keeps its value
      over a whole poll. */
  lemma ReduceUntouched(t: Tables, queue: seq<Event>, kind: Kind, k: int)
    requires k in TableOf(t, kind)
    requires forall i :: 0 <= i < QuitPosition(queue) ==> !Writes(queue[i], kind, k)
    ensures TableOf(Reduce(t, queue).tables, kind)[k] == TableOf(t, kind)[k]
  {
    var q := QuitPosition(queue);
    var prefix := queue[..q];
    if q == |queue| {
      assert prefix == queue;
    }
    forall i | 0 <= i < |prefix|
      ensures !Writes(prefix[i], kind, k)
    {
      assert prefix[i] == queue[i];
    }
    Untouched(t, prefix, kind, k);
  }

  /** The initial tables of a reducer tracking 6 axes and 20 buttons. */
  function DefaultInitial(): Tables
  {
    Tables(ZeroTable(6), ZeroTable(20))
  }

  /** An in-domain axis event and an in-domain button press each land on their index only. */
  lemma FirstAxisAndButtonWrites()
    ensures Reduce(DefaultInitial(), [AxisMotion(0, 12040), Button(0, 1)])
         == PollOutcome(Tables(ZeroTable(6)[0 := 12040], ZeroTable(20)[0 := 1]), true, [])
  {
    var t := DefaultInitial();
    var es := [AxisMotion(0, 12040), Button(0, 1)];
    ReduceWithoutQuit(t, es);
    assert 0 in t.axes && 0 in t.buttons;
    var t1 := Step(t, es[0]);
    assert t1 == Tables(ZeroTable(6)[0 := 12040], ZeroTable(20));
    assert ApplyAll(t, es[..1]) == t1 by {
      assert es[..1][..0] == [];
    }
    assert Step(t1, es[1]) == Tables(ZeroTable(6)[0 := 12040], ZeroTable(20)[0 := 1]);
  }

  /** A press of button 25, outside a 20-button domain, changes nothing and does not stop the loop. */
  lemma OutOfDomainButtonIgnored()
    ensures Reduce(DefaultInitial(), [Button(25, 1)]) == PollOutcome(DefaultInitial(), true, [])
  {
    var es := [Button(25, 1)];
    ReduceWithoutQuit(DefaultInitial(), es);
    assert es[..0] == [];
  }

  /** Two moves of axis 4 in one batch: the later one is what remains. */
  lemma LaterAxisWriteWins()
    ensures Reduce(DefaultInitial(), [AxisMotion(4, -32768), AxisMotion(4, 21530)]).tables.axes[4] == 21530
  {
    var es := [AxisMotion(4, -32768), AxisMotion(4, 21530)];
    assert QuitPosition(es) == 2 by {
      assert es[..2] == es;
    }
    ReduceLastWriteWins(DefaultInitial(), es, Axes, 4, 1);
  }

  /** A lone `Quit` stops the loop and leaves every table as it was. */
  lemma QuitAloneChangesNothing(t: Tables)
    ensures Reduce(t, [Quit]) == PollOutcome(t, false, [])
  {
    ReduceSplitsAtFirstQuit(t, [], []);
    assert [] + [Quit] + [] == [Quit];
  }
}
