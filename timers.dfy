/** The `QTimer` object the window owns, reduced to what the window uses of it:
    running or not, its interval, and the callbacks attached to its `timeout` signal. */
module Timers {
  import WindowState

  class Timer {
    var active: bool
    var interval: int
    var callbacks: seq<WindowState.Request>

    /** The timer's state as a value. */
    function Snapshot(): WindowState.TimerState
      reads this
    {
      WindowState.TimerState(active, interval, callbacks)
    }

    constructor ()
      ensures Snapshot() == WindowState.InitialTimer
    {
      active, interval, callbacks := false, 0, [];
    }

    /** `setInterval`: changes only the interval. */
    method SetInterval(ms: int)
      modifies this
      ensures Snapshot() == old(Snapshot()).(interval := ms)
    {
      interval := ms;
    }

    /** `connect(timer, &QTimer::timeout, ...)`: attaches one more callback after the others. */
    method ConnectTimeout(r: WindowState.Request)
      modifies this
      ensures Snapshot() == old(Snapshot()).(callbacks := old(callbacks) + [r])
    {
      callbacks := callbacks + [r];
    }

    /** `start`: (re)starts the timer; attached callbacks stay. */
    method Start()
      modifies this
      ensures Snapshot() == old(Snapshot()).(active := true)
    {
      active := true;
    }

    /** `stop`: halts the timer; attached callbacks stay. */
    method Stop()
      modifies this
      ensures Snapshot() == old(Snapshot()).(active := false)
    {
      active := false;
    }

    /** `disconnect()` with no arguments: detaches every callback from the timer's signals. */
    method Disconnect()
      modifies this
      ensures Snapshot() == old(Snapshot()).(callbacks := [])
    {
      callbacks := [];
    }
  }
}
