# MainWindow connect/fetch state machine

This project models the control logic of a Qt client for Modbus TCP. The client
reads holding registers on a timer. One window class, `MainWindow`, holds all
of its state:

- `isConnected` and `isFetching`, the two flags;
- a `QTimer` that calls `fetchData(start, length)` on each timeout;
- `tab_reg`, a buffer of 65535 `uint16` slots. Each read stores the registers
  it returns from slot 0 on. The display looks a register up by its address.

The **Connect** button runs `onBtnConnect`. If the IP or port text is empty,
it does nothing. When disconnected, it connects unless `modbus_connect`
returns -1; in that case nothing changes. When connected, it disconnects,
stopping the timer and detaching every timer callback. Each successful connect also connects `onBtnFetch` to the **Fetch**
button's click signal once more. Nothing ever removes those connections.

The **Fetch** button runs `onBtnFetch`. Each run sets the timer interval and
attaches one more timeout callback before it looks at the state. It then starts
the timer (connected and idle) or stops fetching (connected and fetching).

`fetchData` first reads registers into `tab_reg`, which stores them from slot 0
on. It reports success when the read count is positive and at least the start
address. On success it lists the slots `[start, start + length)` of `tab_reg`. The **Clear** button zeroes the whole buffer.

Layout:

- `registers.dfy` (`Registers`): the 16-bit register type, the 65535-slot
  size, the success test of `fetchData` and what a fetch displays.
- `window_state.dfy` (`WindowState`): the window's control state as a value.
  It has one transition function per slot and the invariant those slots keep.
- `window_properties.dfy` (`WindowProperties`): lemmas over clicks and click
  sequences. These include the parity effect of repeated fetch slots.
- `timers.dfy` (`Timers`): the `QTimer` object as a class. It holds a running
  flag, an interval and the ordered list of attached callbacks.
- `mainwindow.dfy` (`MainWindowModel`): the `MainWindow` class. It has the
  fields of `mainwindow.h` and the slots of `mainwindow.cpp`. Each method that
  changes state is proved to move `State()` exactly as its `WindowState`
  function does.

What the model shows about the code as written:

- In every state reachable from a new window by clicks, fetching implies
  connected. The timer runs exactly while fetching, and it then has exactly
  one callback, so each timeout calls `fetchData` once (`Reachable`).
- A click runs `onBtnFetch` once per successful connect made so far. Each run
  toggles fetching, so after an even number of connects a click starts or
  stops nothing (`ClickParity`, `ClickAfterReconnectStartsNothing`). The
  comment at `mainwindow.cpp:109` describes this defect.
- The success test compares the read count with the start address, not with
  the requested length. A read that returns every requested register is
  reported as "no data" whenever the start address exceeds the length. A short
  read whose count is still at least the start address is displayed as a full
  range; a short read whose count is below the start address shows no data
  (`CountComparedWithAddress`).
- The read stores the register of address `start + j` in slot `j`, but the
  display shows slot `start + j` for address `start + j`. For a start above 0,
  the line for address `start + j` shows what the read returned at offset
  `start + j`, or an old slot value, not the register read for that address
  (`DisplayIsOffset`, `ReadRegisterShownAtWrongAddress`).

The model follows the code where a cleaned-up redesign of this client would
differ:

- The buffer has 65535 slots, not 65536.
- Success is `rdNum > 0 && rdNum >= start`, not "count equals length".
- Re-arming the timer adds a callback without detaching the earlier ones.
  Callbacks are detached only by `stopFetching`.

## Model

| member | source | states |
|---|---|---|
| `Registers.Succeeded` | mainwindow.cpp:164 | The success test: the count is positive and at least the start address. |
| `Registers.IsDisplayOf` | mainwindow.cpp:164-177 | What one `fetchData` shows: no data unless the success test holds; otherwise one line per address `start .. start+length-1`, in order, each with that slot's value. |
| `Registers.ReadCount` | mainwindow.cpp:162 | `rdNum` is -1 exactly when the read fails, and otherwise the number of registers read. |
| `Registers.Stored` | mainwindow.cpp:162 | A successful read stores its registers in `tab_reg[0 .. count)`, whatever the start address. Every other slot keeps its value. A failed read stores nothing. |
| `Registers.StoredAll` | mainwindow.cpp:110-112 | Each read of a timeout applies `Stored` in turn. The buffer keeps its size, and an empty sequence of reads leaves it as it was. |
| `Registers.DisplayIsOffset` | mainwindow.cpp:162-172 | After a successful read, the line for address `start + j` shows the register the read returned at offset `start + j` (or the old slot value past the read's end), not the one it returned at offset `j` for that address. |
| `Registers.ReadRegisterShownAtWrongAddress` | mainwindow.cpp:162-172 | Reading one register from address 1 that holds 7 displays address 1 with the old slot value 0. |
| `Registers.CountComparedWithAddress` | mainwindow.cpp:162-172 | A complete read (count = length) from a start address above the length displays no data. A short read whose count reaches the start address displays all `length` lines. |
| `WindowState.Initial` | mainwindow.h:18-19 | The initial control state: not connected, not fetching, Fetch disabled, a new stopped timer with no callbacks, and no fetch slot. Its properties are stated by `WindowProperties.InitialIsConsistent`. |
| `WindowProperties.InitialIsConsistent` | mainwindow.h:18-19 | A new window is not connected and not fetching. The Fetch button is disabled, the timer is stopped with no callbacks, there is no fetch slot, and `Inv` holds. |
| `WindowState.StartTimer` | mainwindow.cpp:145-148 | After `startTimer` the timer runs. Its interval and attached callbacks are unchanged. |
| `WindowState.StopTimer` | mainwindow.cpp:151-156 | After `stopTimer` the timer is stopped whatever its prior state. Interval and callbacks are kept. A stopped timer is left exactly as it was. |
| `WindowState.StopFetching` | mainwindow.cpp:181-186 | After `stopFetching` the timer is stopped with no callbacks attached. Its interval is kept. |
| `WindowState.Connect` | mainwindow.cpp:43-96 | Empty IP or port: nothing changes. Disconnected and `modbus_connect` returns -1: nothing changes, so no fetch slot is added. Disconnected and any other code: connected, not fetching, Fetch enabled, exactly one more fetch slot, timer untouched. Connected: disconnected, not fetching, Fetch disabled, timer stopped with no callbacks and its interval kept, slot count kept. The invariant `Inv` is preserved. |
| `WindowState.Fetch` | mainwindow.cpp:98-129 | The interval is always set and the captured `(start, length)` callback always attached. Connected and idle: fetching with the timer running. Connected and fetching: idle with the timer stopped and no callbacks. Disconnected: flags and running state unchanged. Connection, button and slot count never change. `Inv` is preserved while connected. |
| `WindowState.FetchRepeat` | mainwindow.cpp:110-128 | Any number of consecutive `onBtnFetch` runs leaves the connection flag, the button state and the slot count unchanged. |
| `WindowState.Click` | mainwindow.cpp:74-80 | A click on the disabled Fetch button changes nothing. An enabled click runs `onBtnFetch` once per attached slot. Connection and slot count are unchanged. |
| `WindowState.FetchesPerTick` | mainwindow.cpp:110-112 | While the timer runs, a timeout calls `fetchData` exactly once per attached callback. A stopped timer calls it never. |
| `WindowProperties.StopTimerIdempotent` | mainwindow.cpp:151-156 | Stopping twice is the same as stopping once. |
| `WindowProperties.ToggleParity` | mainwindow.cpp:110-128 | On a connected window, `k` runs of `onBtnFetch` end fetching exactly when `k` is odd (from idle) or even (from fetching). `Inv` holds throughout. When fetching after at least one run, only the last run's callback is attached and the last interval is in force. |
| `WindowProperties.ClickParity` | mainwindow.cpp:80-128 | A click preserves `Inv`. On a connected window it toggles fetching exactly when the number of fetch slots is odd. |
| `WindowProperties.StepKeepsInvariant` | mainwindow.cpp:43-128 | Any Connect or Fetch click preserves `Inv`. |
| `WindowProperties.RunKeepsInvariant` | mainwindow.cpp:43-128 | Any sequence of clicks preserves `Inv`. |
| `WindowProperties.Reachable` | mainwindow.cpp:11-128 | From a new window, every reachable state satisfies `Inv`. Fetching implies connected. A timeout calls `fetchData` once while fetching and never otherwise. |
| `WindowProperties.SlotsNeverRemoved` | mainwindow.cpp:80 | The number of fetch-button slots never decreases over any sequence of clicks. |
| `WindowProperties.ClickAfterReconnectStartsNothing` | mainwindow.cpp:109-128 | Connect then click: fetching starts. Connect, disconnect, connect, click: two slots are attached and the window is connected but not fetching, with the timer stopped and no callbacks. |
| `Timers.Timer.constructor` | mainwindow.cpp:39 | A new timer is stopped, has interval 0 and has no callbacks. |
| `Timers.Timer.SetInterval` | mainwindow.cpp:107 | Only the interval changes. |
| `Timers.Timer.ConnectTimeout` | mainwindow.cpp:110-112 | The captured request is appended after the existing callbacks. Nothing else changes. |
| `Timers.Timer.Start` | mainwindow.cpp:147 | The timer runs. Callbacks and interval are unchanged. |
| `Timers.Timer.Stop` | mainwindow.cpp:154 | The timer stops. Callbacks and interval are unchanged. |
| `Timers.Timer.Disconnect` | mainwindow.cpp:185 | Every callback is detached. Running state and interval are unchanged. |
| `MainWindowModel.MainWindow.constructor` | mainwindow.h:18-26 | A new window is not connected and not fetching. Fetch is disabled and no fetch slot is attached. The timer is new and stopped, with no callbacks. `tab_reg` has exactly 65535 slots, all zero. |
| `MainWindowModel.MainWindow.OnBtnConnect` | mainwindow.cpp:43-96 | The new control state is `WindowState.Connect` of the old one. The register buffer is unchanged. |
| `MainWindowModel.MainWindow.OnBtnFetch` | mainwindow.cpp:98-129 | The new control state is `WindowState.Fetch` of the old one. The register buffer is unchanged. |
| `MainWindowModel.MainWindow.ClickFetch` | mainwindow.cpp:80 | The new control state is `WindowState.Click` of the old one. This is one `onBtnFetch` run per slot attached at line 80. |
| `MainWindowModel.MainWindow.OnBtnClearClicked` | mainwindow.cpp:137-142 | Every slot of `tab_reg` is 0. Flags, slot count and timer are unchanged. |
| `MainWindowModel.MainWindow.StartTimer` | mainwindow.cpp:145-148 | The given timer moves as `WindowState.StartTimer` says. |
| `MainWindowModel.MainWindow.StopTimer` | mainwindow.cpp:151-156 | The given timer moves as `WindowState.StopTimer` says: it is stopped only if active. |
| `MainWindowModel.MainWindow.StopFetching` | mainwindow.cpp:181-186 | The window's timer is stopped with every callback detached. |
| `MainWindowModel.MainWindow.ShowRegisters` | mainwindow.cpp:164-177 | The result is "no data" exactly when `rdNum > 0 && rdNum >= start` fails. Otherwise it holds one line per address `start .. start+length-1`, in order, each with that slot's value. |
| `MainWindowModel.MainWindow.FetchData` | mainwindow.cpp:159-178 | The read's registers are stored from slot 0 on (`Stored`). Then the buffer is shown as `IsDisplayOf` says, with the read's count as `rdNum`. The control state is unchanged. |
| `MainWindowModel.MainWindow.TimerTimeout` | mainwindow.cpp:110-112 | A stopped timer calls nothing and leaves the buffer alone. A running one calls `fetchData` once per attached callback, in attach order, with each callback's captured start and length. Each call stores its read and shows the buffer as the reads so far left it. The control state is unchanged. |

## Left out

- Qt user-interface plumbing is not modelled:
  - widgets and message boxes;
  - status-bar label replacement and button texts;
  - the receive-text formatting and its time stamps;
  - the `qDebug` output.
- The IP and port input validators (regular-expression validators) are not
  modelled. They depend on Qt semantics. Only whether each text is empty matters
  to the model.
- Converting the interval, start and length texts with `toInt` is not
  modelled. The model takes the resulting integers as inputs.
- libmodbus is opaque. `modbus_new_tcp`, `modbus_set_slave`, `modbus_free`,
  `modbus_strerror` and `modbus_set_response_timeout` (with its one-second
  timeout) are left out. The connect return code is a parameter.
- libmodbus's source is not part of this model. Each read is a parameter: a
  failure (count -1), or the registers read, which the read stores from
  `tab_reg[0]` on, so that register `start + k` lands in `tab_reg[k]`. The model
  allows any number of registers up to the buffer size, including short reads,
  without modelling when libmodbus itself would reject a response.
- Real-time timer behaviour is not modelled: intervals elapsing, tick spacing
  and event-loop scheduling. The timer is a running flag, an interval and a
  callback list. A timeout is the `TimerTimeout` method.
- The destructor only frees the UI object, so it is not modelled. The
  immediate `fetchData` call in `onBtnFetch` is commented out in the code, so it
  is not modelled either.
- FetchData: requires a read to return at most 65535 registers, the buffer
  size. It also requires the displayed range to lie within the 65535 slots
  whenever the success test passes. In that case the code indexes outside the
  array, which has no defined meaning in C, and the model gives that access no
  meaning.
- ShowRegisters: requires the same in-bounds condition as `FetchData`.
- TimerTimeout: requires the same conditions of every read and attached
  callback, because it calls `FetchData` for each one.
