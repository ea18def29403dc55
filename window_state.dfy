/** The connect/fetch state of `MainWindow` as a value, and each slot's effect on it.
    The class in mainwindow.dfy is proved to change its fields exactly as these functions say. */
module WindowState {

  /** The `(start, length)` pair captured by the timeout callback `onBtnFetch` attaches. */
  datatype Request = Request(start: int, length: int)

  /** A `QTimer` as the window uses it: whether it runs, its interval in milliseconds,
      and the callbacks attached to its `timeout` signal, in the order they were attached. */
  datatype TimerState = TimerState(active: bool, interval: int, callbacks: seq<Request>)

  /** The window's control state. `fetchEnabled` is whether the fetch button accepts clicks;
      `fetchSlots` is how many times `onBtnFetch` has been connected to its `clicked` signal. */
  datatype Window = Window(
    isConnected: bool,
    isFetching: bool,
    fetchEnabled: bool,
    timer: TimerState,
    fetchSlots: nat)

  /** A freshly created `QTimer`: not running, interval 0, nothing attached. */
  const InitialTimer := TimerState(false, 0, [])

  /** A freshly constructed window: not connected, not fetching, the fetch button disabled,
      the timer new, and no fetch slot attached yet. */
  const Initial := Window(false, false, false, InitialTimer, 0)

  /** `startTimer`: the timer runs; nothing attached to it changes. */
  function StartTimer(t: TimerState): (r: TimerState)
    ensures r.active
    ensures r.interval == t.interval && r.callbacks == t.callbacks
  {
    t.(active := true)
  }

  /** `stopTimer`: stops the timer only if it runs; afterwards it is stopped whatever it was,
      and a stopped timer is left as it is. */
  function StopTimer(t: TimerState): (r: TimerState)
    ensures !r.active
    ensures r.interval == t.interval && r.callbacks == t.callbacks
    ensures !t.active ==> r == t
  {
    if t.active then t.(active := false) else t
  }

  /** `stopFetching`: the timer stopped and every callback detached from it. */
  function StopFetching(t: TimerState): (r: TimerState)
    ensures !r.active && r.callbacks == []
    ensures r.interval == t.interval
  {
    StopTimer(t).(callbacks := [])
  }

  /** The consistency the slots keep: fetching only while connected, the fetch button enabled
      exactly while connected, the timer running exactly while fetching with exactly one
      callback then and none otherwise, and at least one fetch slot once connected. */
  predicate Inv(w: Window)
  {
    (w.isFetching ==> w.isConnected) &&
    w.fetchEnabled == w.isConnected &&
    w.timer.active == w.isFetching &&
    |w.timer.callbacks| == (if w.isFetching then 1 else 0) &&
    (w.isConnected ==> w.fetchSlots >= 1)
  }

  /** `onBtnConnect` with the IP and port texts and the code `modbus_connect` returns. */
  function Connect(w: Window, ip: string, port: string, rc: int): (r: Window)
    // a missing IP or port changes nothing
    ensures ip == [] || port == [] ==> r == w
    // a refused connection leaves everything as it was
    ensures ip != [] && port != [] && !w.isConnected && rc == -1 ==> r == w
    // a connection: connected, not fetching, button enabled, one more fetch slot, timer untouched
    ensures ip != [] && port != [] && !w.isConnected && rc != -1 ==>
      r.isConnected && !r.isFetching && r.fetchEnabled &&
      r.fetchSlots == w.fetchSlots + 1 && r.timer == w.timer
    // a disconnection: nothing fetching, timer stopped and empty, fetch slots kept
    ensures ip != [] && port != [] && w.isConnected ==>
      !r.isConnected && !r.isFetching && !r.fetchEnabled &&
      !r.timer.active && r.timer.callbacks == [] && r.timer.interval == w.timer.interval &&
      r.fetchSlots == w.fetchSlots
    ensures Inv(w) ==> Inv(r)
  {
    if ip == [] || port == [] then w
    else if !w.isConnected then
      if rc == -1 then w
      else w.(isConnected := true, isFetching := false, fetchEnabled := true,
              fetchSlots := w.fetchSlots + 1)
    else
      w.(timer := StopFetching(w.timer), isFetching := false, isConnected := false,
         fetchEnabled := false)
  }

  /** One run of `onBtnFetch` with the interval, start and length read from the form. The
      interval is set and a callback attached before the state is looked at, whatever it is. */
  function Fetch(w: Window, interval: int, start: int, length: int): (r: Window)
    ensures r.isConnected == w.isConnected && r.fetchEnabled == w.fetchEnabled
    ensures r.fetchSlots == w.fetchSlots && r.timer.interval == interval
    ensures w.isConnected && !w.isFetching ==>
      r.isFetching && r.timer.active &&
      r.timer.callbacks == w.timer.callbacks + [Request(start, length)]
    ensures w.isConnected && w.isFetching ==>
      !r.isFetching && !r.timer.active && r.timer.callbacks == []
    ensures !w.isConnected ==>
      r.isFetching == w.isFetching && r.timer.active == w.timer.active &&
      r.timer.callbacks == w.timer.callbacks + [Request(start, length)]
    ensures Inv(w) && w.isConnected ==> Inv(r)
  {
    var t := w.timer.(interval := interval, callbacks := w.timer.callbacks + [Request(start, length)]);
    if w.isConnected && !w.isFetching then
      w.(timer := StartTimer(t), isFetching := true)
    else if w.isConnected && w.isFetching then
      w.(timer := StopFetching(t), isFetching := false)
    else
      w.(timer := t)
  }

  /** `k` runs of `onBtnFetch` one after the other, with the same form values. */
  function FetchRepeat(w: Window, k: nat, interval: int, start: int, length: int): (r: Window)
    ensures r.isConnected == w.isConnected && r.fetchEnabled == w.fetchEnabled
    ensures r.fetchSlots == w.fetchSlots
    decreases k
  {
    if k == 0 then w else Fetch(FetchRepeat(w, k - 1, interval, start, length), interval, start, length)
  }

  /** A click on the fetch button: a disabled button emits nothing; an enabled one runs
      `onBtnFetch` once per time it was connected to the click signal. */
  function Click(w: Window, interval: int, start: int, length: int): (r: Window)
    ensures !w.fetchEnabled ==> r == w
    ensures r.isConnected == w.isConnected && r.fetchSlots == w.fetchSlots
  {
    if w.fetchEnabled then FetchRepeat(w, w.fetchSlots, interval, start, length) else w
  }

  /** How many `fetchData` calls one timeout of the timer makes: exactly one per attached
      callback while it runs, none while it is stopped. */
  function FetchesPerTick(t: TimerState): (n: nat)
    ensures t.active ==> n == |t.callbacks|
    ensures !t.active ==> n == 0
  {
    if t.active then |t.callbacks| else 0
  }

  /** A user action on the window. */
  datatype Event =
    | ConnectClicked(ip: string, port: string, rc: int)
    | FetchClicked(interval: int, start: int, length: int)

  function Step(w: Window, e: Event): Window
  {
    match e
    case ConnectClicked(ip, port, rc) => Connect(w, ip, port, rc)
    case FetchClicked(interval, start, length) => Click(w, interval, start, length)
  }

  /** The state after the actions `es`, in order. */
  function Run(w: Window, es: seq<Event>): Window
    decreases |es|
  {
    if es == [] then w else Run(Step(w, es[0]), es[1..])
  }
}
