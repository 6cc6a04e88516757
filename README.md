# Joystick input-state reducer

A Dafny model of the state-keeping core of two Python scripts that read a
game controller (a Steam Deck) through SDL2 and show its state in a
terminal dashboard.

Both scripts keep two dictionaries: axis index to signed position and button
index to state. Each dictionary starts with a fixed key set `range(n)`, all
values 0. Once per frame, a polling loop takes every pending event off SDL's
queue:

- An axis-motion event overwrites its axis if that axis is a key.
- A button-down or button-up event overwrites its button if that button is a key.
- Any other event is ignored.
- A quit event ends the loop. `Joystick.update` returns `False`; the
  events behind the quit stay queued. `poll_joystick_events` ends the process.

`steamdeck_input_api.py` adds getters on top. Each getter reads fixed indices
out of the dictionaries under labels such as "Up" or "L2 Axis", with 0 for an
index that is not tracked. `full_state` returns copies of both dictionaries.

Modules:

- `Events` (`events.dfy`): the event datatype, the SDL field ranges
  (`Uint8`, `Sint16`), the `Tables` value that holds both dictionaries, and
  the initial table `{i: 0 for i in range(n)}`.
- `StateReducer` (`state_reducer.dfy`): the reducer as pure functions.
  `Step` applies one event, `ApplyAll` applies a sequence of events, and
  `QuitPosition` finds the first quit. `Reduce` is one whole poll: the new
  tables, the continue flag and the events still queued. This module also
  holds the lemmas about them.
- `SteamdeckInputApi` (`steamdeck_input_api.dfy`): the `Joystick` class.
  Its two map fields are updated in place by the loop in `Update`, and its
  getters are functions that read those fields. Each getter is specified
  against a layout table (label to axis or button index).
- `SimpleSdl2InputReader` (`simple_sdl2_input_reader.dfy`): the dictionaries
  as reference objects (`IntDict`), their creation in `main`, and
  `PollJoystickEvents`. That loop mutates the caller's dictionaries in place.

Both loops are proved against the same specification, `StateReducer.Reduce`.

A button's value is stored exactly as SDL delivers `jbutton.state`, an
unsigned byte. The code does not coerce it to 0/1, so the model only
promises the byte range.

## Model

| member | source | states |
|---|---|---|
| `Events.ZeroTable` | steamdeck_input_api.py:44-45 | the initial dictionary has exactly the keys 0..n-1 (none for n <= 0), each mapped to 0 |
| `Events.ZeroTableSize` | simple_sdl2_input_reader.py:165-166 | the initial dictionary has exactly n entries, or none when n is negative |
| `StateReducer.Step` | steamdeck_input_api.py:76-84 | one event never adds or removes a key; an axis event leaves the button table alone, a button event leaves the axis table alone, any other event leaves both; an event whose index is not a key changes nothing; values stay in SDL's Sint16/Uint8 ranges |
| `StateReducer.ApplyAll` | steamdeck_input_api.py:74-82 | applying a sequence of events in order keeps both key sets exactly as they were and keeps values in range |
| `StateReducer.QuitPosition` | steamdeck_input_api.py:84-86 | the position of the first quit event: no quit before it, and a quit at it unless it is the queue's length |
| `StateReducer.Reduce` | steamdeck_input_api.py:74-87 | a poll reports "keep running" if and only if the queue holds no quit; when it keeps running nothing stays queued; key sets and value ranges are preserved |
| `StateReducer.FirstQuitAt` | steamdeck_input_api.py:84-86 | a quit with no quit before it is the one the loop stops at |
| `StateReducer.ReduceSplitsAtFirstQuit` | steamdeck_input_api.py:84-87 | for a queue `before + [Quit] + after` with no quit in `before`: only `before` is applied, the result is "stop", and `after` stays queued untouched |
| `StateReducer.ReduceWithoutQuit` | steamdeck_input_api.py:74-87 | a queue without quit is applied in full, drained, and reported as "keep running" |
| `StateReducer.LastWriteWins` | steamdeck_input_api.py:74-82 | a tracked index ends up with the value of the last event aimed at it |
| `StateReducer.Untouched` | steamdeck_input_api.py:77-82 | a tracked index that no event aims at keeps its value |
| `StateReducer.OtherKindUntouched` | steamdeck_input_api.py:76-84 | a batch without axis events leaves the axis table equal to what it was, and a batch without button events leaves the button table equal to what it was |
| `StateReducer.IgnoredEventsChangeNothing` | steamdeck_input_api.py:76-84 | a batch made only of out-of-domain axis/button events and other event types leaves both tables unchanged |
| `StateReducer.ReduceLastWriteWins` | steamdeck_input_api.py:74-86 | after a whole poll, a tracked index holds the value of the last event aimed at it before the first quit; events after the quit do not count |
| `StateReducer.ReduceUntouched` | steamdeck_input_api.py:74-86 | after a whole poll, a tracked index that no event before the first quit aims at keeps its value |
| `StateReducer.FirstAxisAndButtonWrites` | steamdeck_input_api.py:76-82 | with 6 axes and 20 buttons at 0, axis 0 moving to 12040 and button 0 pressing give axis 0 = 12040, button 0 = 1, everything else 0, keep running |
| `StateReducer.OutOfDomainButtonIgnored` | steamdeck_input_api.py:80-82 | pressing button 25 with 20 buttons tracked changes nothing and keeps running |
| `StateReducer.LaterAxisWriteWins` | steamdeck_input_api.py:76-78 | axis 4 moved to -32768 then to 21530 in one batch ends at 21530 |
| `StateReducer.QuitAloneChangesNothing` | steamdeck_input_api.py:84-86 | a lone quit leaves the tables as they were and stops |
| `SteamdeckInputApi.Joystick.constructor` | steamdeck_input_api.py:44-45 | a new joystick tracks exactly axes 0..num_axes-1 and buttons 0..num_buttons-1, all 0 |
| `SteamdeckInputApi.Joystick.FullState` | steamdeck_input_api.py:239-243 | the snapshot holds a table equal to each dictionary, as a value |
| `SteamdeckInputApi.Joystick.Update` | steamdeck_input_api.py:64-87 | the in-place loop leaves the dictionaries, the returned flag and the still-queued events exactly as `Reduce` says; the key sets stay `range(num_axes)` / `range(num_buttons)` and values stay in range |
| `SteamdeckInputApi.SnapshotSurvivesUpdate` | steamdeck_input_api.py:239-243 | a snapshot taken before an update still equals the state before it afterwards, while the joystick holds the reduced state |
| `SteamdeckInputApi.Get` | steamdeck_input_api.py:112-115 | `get(k, 0)`: the value at a key that is present, 0 otherwise |
| `SteamdeckInputApi.Project` | steamdeck_input_api.py:111-117 | a group read has exactly the layout's labels, each with its control's tracked value or 0 |
| `SteamdeckInputApi.Joystick.DpadState` | steamdeck_input_api.py:111-117 | Up, Down, Left, Right read buttons 11, 12, 13, 14 |
| `SteamdeckInputApi.Joystick.FaceButtons` | steamdeck_input_api.py:135-141 | A, B, X, Y read buttons 0, 1, 2, 3 |
| `SteamdeckInputApi.Joystick.ShoulderState` | steamdeck_input_api.py:161-167 | L1, R1 read buttons 9, 10; "L2 Axis", "R2 Axis" read axes 4, 5 |
| `SteamdeckInputApi.Joystick.JoystickState` | steamdeck_input_api.py:188-196 | LX, LY, RX, RY read axes 0-3; L3, R3 read buttons 7, 8 |
| `SteamdeckInputApi.Joystick.BackButtons` | steamdeck_input_api.py:215-221 | L4, R4, L5, R5 read buttons 17, 16, 19, 18 |
| `SteamdeckInputApi.DefaultDomainCoversLayouts` | steamdeck_input_api.py:22-23 | with the default 6 axes and 20 buttons, every control of every getter is tracked |
| `SteamdeckInputApi.UntrackedReadsZero` | steamdeck_input_api.py:111-116 | a control whose index is not tracked reads 0 after any poll |
| `SteamdeckInputApi.GetterShowsLastWrite` | steamdeck_input_api.py:161-166 | after a poll, a labelled control shows the value of the last event aimed at its index before the first quit |
| `SteamdeckInputApi.DpadReadsPressedUp` | steamdeck_input_api.py:111-116 | with only button 11 pressed, the D-pad reads Up = 1 and Down = Left = Right = 0 |
| `SimpleSdl2InputReader.IntDict.Zeros` | simple_sdl2_input_reader.py:165-166 | a new dictionary is `{i: 0 for i in range(n)}` |
| `SimpleSdl2InputReader.InitStateTables` | simple_sdl2_input_reader.py:165-166 | `main` starts with two fresh dictionaries: exactly keys 0..5 and 0..19, all 0 |
| `SimpleSdl2InputReader.PollJoystickEvents` | simple_sdl2_input_reader.py:69-91 | the in-place loop leaves the caller's two dictionaries as `Reduce` says, and reports an exit exactly when `Reduce` says stop, that is, when the queue holds a quit |

## Left out

- SDL initialisation, opening and closing the device, and their error paths are not modelled. This covers `_initialize_sdl`, `_open_joystick`, `close`, `init_joystick` and the `RuntimeError`/`sys.exit(1)` raised there. These are foreign library calls. The `Joystick` constructor keeps only the dictionary construction, so its device `index` argument is dropped.
- Rendering is not modelled: `generate_dashboard_layout`, `create_table`, `generate_dashboard` and `display_dashboard`. This is terminal UI output.
- The two `main` loops are not modelled: frame pacing with `SDL_Delay`, the refresh-rate constants, and `KeyboardInterrupt`/`finally` cleanup. They are process lifecycle. The Steam Deck `main` ignores the flag `update` returns, so it never stops on quit. `REFRESH_DELAY_SEC` evaluates to 0.
- SDL's event queue is a `seq<Event>` parameter, not global state. The `SDL_Event` buffer that `poll_joystick_events` receives is replaced by that sequence. SDL's numeric event-type codes are reduced to the `Event` variants. Button-down and button-up are one variant, because the code treats them alike.
- `SimpleSdl2InputReader.PollJoystickEvents`: requires the two dictionaries to be distinct objects. Passing one dictionary for both roles is not modelled; `main` never does that.
- `SimpleSdl2InputReader.PollJoystickEvents`: `sys.exit(0)` becomes the returned `exited` flag. What happens to events after the quit is not modelled, because the process ends there.
- `SteamdeckInputApi.Joystick.FullState`: returns a `Tables` value rather than a dictionary with keys "axes" and "buttons". Copying is implicit in value semantics.
- The getters return Dafny maps, which have no order. The insertion order of the Python dictionaries only affects how the dashboard lays out rows.
