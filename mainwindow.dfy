/** The window's state and slots: connect/disconnect, start/stop fetching, clearing the
    register buffer, and what a fetch shows. Each state-changing method is specified by the
    transition function of `WindowState` it implements. */
module MainWindowModel {
  import WindowState
  import opened Registers
  import opened Timers

  class MainWindow {
    var isConnected: bool
    var isFetching: bool
    /** Whether the fetch button is enabled (a disabled button emits no click). */
    var fetchEnabled: bool
    /** How many times `onBtnFetch` has been connected to the fetch button's click signal. */
    var fetchSlots: nat
    const timer: Timer
    /** `tab_reg`: each read stores the registers it returns from slot 0 on; the display
        looks a register up by its address. */
    const tabReg: array<uint16>

    ghost predicate Valid()
      reads this
    {
      tabReg.Length == REGISTER_SLOTS
    }

    /** The control state as a value. */
    ghost function State(): WindowState.Window
      reads this, timer
    {
      WindowState.Window(isConnected, isFetching, fetchEnabled, timer.Snapshot(), fetchSlots)
    }

    /** A new window: not connected, not fetching, fetch button disabled, a new stopped timer,
        no fetch slot, and 65535 register slots all zero. */
    constructor ()
      ensures Valid() && fresh(timer) && fresh(tabReg)
      ensures State() == WindowState.Initial
      ensures forall a :: 0 <= a < tabReg.Length ==> tabReg[a] == 0
    {
      isConnected, isFetching := false, false;
      fetchEnabled := false;
      fetchSlots := 0;
      timer := new Timer();
      tabReg := new uint16[REGISTER_SLOTS](_ => 0);
    }

    /** `onBtnConnect`, given the IP and port texts and what `modbus_connect` returns. */
    method OnBtnConnect(ip: string, port: string, connectRc: int)
      modifies this, timer
      ensures State() == WindowState.Connect(old(State()), ip, port, connectRc)
      ensures tabReg[..] == old(tabReg[..])
    {
      if ip == [] || port == [] {
        return;
      }
      if !isConnected {
        if connectRc == -1 {
          return;
        }
        isConnected := true;
        isFetching := false;
        fetchEnabled := true;
        fetchSlots := fetchSlots + 1;
      } else {
        StopFetching();
        isFetching := false;
        isConnected := false;
        fetchEnabled := false;
      }
    }

    /** `onBtnFetch`, given the interval, start and length read from the form. */
    method OnBtnFetch(interval: int, start: int, length: int)
      modifies this, timer
      ensures State() == WindowState.Fetch(old(State()), interval, start, length)
      ensures tabReg[..] == old(tabReg[..])
    {
      timer.SetInterval(interval);
      timer.ConnectTimeout(WindowState.Request(start, length));
      if isConnected && !isFetching {
        StartTimer(timer);
        isFetching := true;
      } else if isConnected && isFetching {
        StopFetching();
        isFetching := false;
      }
    }

    /** A click on the fetch button: runs `onBtnFetch` once per slot attached, if enabled. */
    method ClickFetch(interval: int, start: int, length: int)
      modifies this, timer
      ensures State() == WindowState.Click(old(State()), interval, start, length)
      ensures tabReg[..] == old(tabReg[..])
    {
      if !fetchEnabled {
        return;
      }
      var slots := fetchSlots;
      for i := 0 to slots
        invariant State() == WindowState.FetchRepeat(old(State()), i, interval, start, length)
        invariant tabReg[..] == old(tabReg[..])
      {
        OnBtnFetch(interval, start, length);
      }
    }

    /** `on_btnClear_clicked`: every register slot set to zero; flags and timer untouched. */
    method OnBtnClearClicked()
      modifies tabReg
      ensures forall a :: 0 <= a < tabReg.Length ==> tabReg[a] == 0
      ensures State() == old(State())
    {
      forall a | 0 <= a < tabReg.Length {
        tabReg[a] := 0;
      }
    }

    /** `startTimer`. */
    method StartTimer(t: Timer)
      modifies t
      ensures t.Snapshot() == WindowState.StartTimer(old(t.Snapshot()))
    {
      t.Start();
    }

    /** `stopTimer`: stops the timer only if it runs. */
    method StopTimer(t: Timer)
      modifies t
      ensures t.Snapshot() == WindowState.StopTimer(old(t.Snapshot()))
    {
      if t.active {
        t.Stop();
      }
    }

    /** `stopFetching`: stop the timer, then detach every callback from it. */
    method StopFetching()
      modifies timer
      ensures timer.Snapshot() == WindowState.StopFetching(old(timer.Snapshot()))
    {
      StopTimer(timer);
      timer.Disconnect();
    }

    /** The display part of `fetchData(start, length)`, given the count `rdNum` the read
        returned: no data unless the count is positive and at least `start`; otherwise one line
        per address of `[start, start + length)`, in order, with the value in that slot. */
    method ShowRegisters(start: int, length: int, rdNum: int) returns (shown: Display)
      requires Valid()
      requires Succeeded(rdNum, start) ==> InBuffer(start, length)
      ensures IsDisplayOf(tabReg[..], start, length, rdNum, shown)
    {
      if rdNum > 0 && rdNum >= start {
        var lines: seq<Reading> := [];
        var i := start;
        while i < start + length
          invariant start <= i && (if length > 0 then i <= start + length else i == start)
          invariant |lines| == i - start
          invariant forall j :: 0 <= j < |lines| ==>
            0 <= start + j < tabReg.Length && lines[j] == Reading(start + j, tabReg[start + j])
        {
          lines := lines + [Reading(i, tabReg[i])];
          i := i + 1;
        }
        shown := Lines(lines);
      } else {
        shown := NoData;
      }
    }

    /** `fetchData(start, length)`, given what `modbus_read_registers` returns: the registers
        read are stored in `tab_reg` from slot 0 on, then the range `[start, start + length)`
        of the buffer is shown if the count passes the success test. */
    method FetchData(start: int, length: int, read: ReadResult) returns (shown: Display)
      requires Valid()
      requires read.ReadOk? ==> |read.values| <= REGISTER_SLOTS
      requires Succeeded(ReadCount(read), start) ==> InBuffer(start, length)
      modifies tabReg
      ensures tabReg[..] == Stored(old(tabReg[..]), read)
      ensures IsDisplayOf(tabReg[..], start, length, ReadCount(read), shown)
      ensures State() == old(State())
    {
      if read.ReadOk? {
        forall k | 0 <= k < |read.values| {
          tabReg[k] := read.values[k];
        }
      }
      assert tabReg[..] == Stored(old(tabReg[..]), read);
      shown := ShowRegisters(start, length, ReadCount(read));
    }

    /** One timeout of the timer, given what each `fetchData` call's read returns: a stopped
        timer calls nothing; a running one calls `fetchData` once per attached callback, in
        attach order, with the start and length that callback captured. Each call shows the
        buffer as the reads up to and including its own left it. */
    method TimerTimeout(results: seq<ReadResult>) returns (shown: seq<Display>)
      requires Valid()
      requires |results| == |timer.callbacks|
      requires AllFit(REGISTER_SLOTS, results)
      requires forall j :: 0 <= j < |results| ==>
        Succeeded(ReadCount(results[j]), timer.callbacks[j].start) ==>
          InBuffer(timer.callbacks[j].start, timer.callbacks[j].length)
      modifies tabReg
      ensures |shown| == WindowState.FetchesPerTick(timer.Snapshot())
      ensures tabReg[..] == StoredAll(old(tabReg[..]), results[..|shown|])
      ensures forall j :: 0 <= j < |shown| ==>
        IsDisplayOf(StoredAll(old(tabReg[..]), results[..j + 1]), timer.callbacks[j].start,
                    timer.callbacks[j].length, ReadCount(results[j]), shown[j])
      ensures State() == old(State())
    {
      shown := [];
      if !timer.active {
        return;
      }
      var k := 0;
      while k < |results|
        invariant k <= |results| && |shown| == k
        invariant tabReg[..] == StoredAll(old(tabReg[..]), results[..k])
        invariant forall j :: 0 <= j < k ==>
          IsDisplayOf(StoredAll(old(tabReg[..]), results[..j + 1]), timer.callbacks[j].start,
                      timer.callbacks[j].length, ReadCount(results[j]), shown[j])
      {
        var d := FetchData(timer.callbacks[k].start, timer.callbacks[k].length, results[k]);
        assert results[..k + 1][..k] == results[..k];
        shown := shown + [d];
        k := k + 1;
      }
    }
  }
}
