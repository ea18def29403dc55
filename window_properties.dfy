/** What the connect and fetch slots guarantee over sequences of clicks, and the
    repeated-slot defect: every successful connect attaches `onBtnFetch` to the fetch
    button once more, so one click toggles fetching once per connect made so far. */
module WindowProperties {
  import opened WindowState

  /** Stopping a stopped timer changes nothing. */
  lemma StopTimerIdempotent(t: TimerState)
    ensures StopTimer(StopTimer(t)) == StopTimer(t)
  {
  }

  /** `k` runs of `onBtnFetch` on a connected window toggle fetching `k` times: it ends
      fetching exactly when it started idle and `k` is odd, or started fetching and `k` is
      even. The invariant holds throughout, and when it ends fetching after at least one run
      the timer holds only the callback of the last run. */
  lemma {:induction false} ToggleParity(w: Window, k: nat, interval: int, start: int, length: int)
    requires Inv(w) && w.isConnected
    ensures Inv(FetchRepeat(w, k, interval, start, length))
    ensures FetchRepeat(w, k, interval, start, length).isFetching == (w.isFetching != (k % 2 == 1))
    ensures k > 0 && FetchRepeat(w, k, interval, start, length).isFetching ==>
      FetchRepeat(w, k, interval, start, length).timer.callbacks == [Request(start, length)]
    ensures k > 0 ==> FetchRepeat(w, k, interval, start, length).timer.interval == interval
    decreases k
  {
    if k > 0 {
      ToggleParity(w, k - 1, interval, start, length);
    }
  }

  /** A click keeps the invariant. On a connected window it starts or stops fetching only
      when an odd number of fetch slots is attached; with an even number (after a reconnect,
      say) the click leaves fetching as it was. */
  lemma ClickParity(w: Window, interval: int, start: int, length: int)
    requires Inv(w)
    ensures Inv(Click(w, interval, start, length))
    ensures w.isConnected ==>
      Click(w, interval, start, length).isFetching == (w.isFetching != (w.fetchSlots % 2 == 1))
  {
    if w.fetchEnabled {
      ToggleParity(w, w.fetchSlots, interval, start, length);
    }
  }

  /** Every click keeps the invariant. */
  lemma StepKeepsInvariant(w: Window, e: Event)
    requires Inv(w)
    ensures Inv(Step(w, e))
  {
    match e
    case ConnectClicked(ip, port, rc) =>
    case FetchClicked(interval, start, length) => ClickParity(w, interval, start, length);
  }

  /** Any sequence of clicks keeps the invariant. */
  lemma {:induction false} RunKeepsInvariant(w: Window, es: seq<Event>)
    requires Inv(w)
    ensures Inv(Run(w, es))
    decreases |es|
  {
    if es != [] {
      StepKeepsInvariant(w, es[0]);
      RunKeepsInvariant(Step(w, es[0]), es[1..]);
    }
  }

  /** A freshly constructed window is not connected, not fetching, has the fetch button
      disabled, a stopped timer with no callbacks and no fetch slot, and is consistent. */
  lemma InitialIsConsistent()
    ensures !Initial.isConnected && !Initial.isFetching && !Initial.fetchEnabled
    ensures !Initial.timer.active && Initial.timer.callbacks == [] && Initial.fetchSlots == 0
    ensures Inv(Initial)
  {
  }

  /** Every state a freshly constructed window can reach by clicks fetches only while
      connected, and each timeout of its timer calls `fetchData` once while fetching and
      never otherwise. */
  lemma Reachable(es: seq<Event>)
    ensures Inv(Run(Initial, es))
    ensures Run(Initial, es).isFetching ==> Run(Initial, es).isConnected
    ensures FetchesPerTick(Run(Initial, es).timer) == if Run(Initial, es).isFetching then 1 else 0
  {
    RunKeepsInvariant(Initial, es);
  }

  /** No click ever removes a fetch slot. */
  lemma {:induction false} SlotsNeverRemoved(w: Window, es: seq<Event>)
    ensures Run(w, es).fetchSlots >= w.fetchSlots
    decreases |es|
  {
    if es != [] {
      SlotsNeverRemoved(Step(w, es[0]), es[1..]);
    }
  }

  /** The defect as a run: connect and click, and fetching starts; disconnect, connect
      again and click, and the click starts nothing, because two slots run `onBtnFetch`
      twice and the second run stops what the first started. */
  lemma ClickAfterReconnectStartsNothing()
    ensures Run(Initial, [ConnectClicked("127.0.0.1", "502", 0), FetchClicked(3000, 0, 8)]).isFetching
    ensures var w := Run(Initial, [ConnectClicked("127.0.0.1", "502", 0), ConnectClicked("127.0.0.1", "502", 0),
                                   ConnectClicked("127.0.0.1", "502", 0), FetchClicked(3000, 0, 8)]);
      w.isConnected && w.fetchSlots == 2 && !w.isFetching && !w.timer.active && w.timer.callbacks == []
  {
  }
}
