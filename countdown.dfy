/** The countdown shown when the reminder fires: a one-second timer that
    decrements the window's counter and re-arms itself while the window is
    visible, then hides the window and resets the counter for next time.

    Only the decision each tick makes is modelled; the timer scheduling and
    the window itself belong to the UI toolkit. */
module Countdown {

  /** The counter the countdown restarts from after it finishes. */
  const ResetCounter: int := 10

  /** The two window properties a tick reads and writes. */
  datatype TickState = TickState(counter: int, visible: bool)

  /** A tick re-arms the timer when there is time left and the window is
      still shown. */
  predicate Rearms(s: TickState) {
    s.counter > 0 && s.visible
  }

  /** The window state after one tick. The counter never goes below zero,
      and a tick either brings it one closer to zero with the window still
      shown or finishes: window hidden and counter back at 10. */
  function AfterTick(s: TickState): (r: TickState)
    ensures r.counter >= 0
    ensures Rearms(s) ==> r.visible && r.counter + 1 == s.counter
    ensures !Rearms(s) ==> r == TickState(ResetCounter, false)
  {
    if Rearms(s) then TickState(s.counter - 1, true) else TickState(ResetCounter, false)
  }

  /** The chain of ticks one countdown runs while nobody hides the window:
      where it ends and how many ticks it takes. From a shown window with
      `n > 0` left it takes `n + 1` ticks (n decrements, then the finishing
      one) and always ends hidden with the counter reset. */
  function RunToEnd(s: TickState): (r: (TickState, nat))
    ensures r.0 == TickState(ResetCounter, false)
    ensures r.1 == if Rearms(s) then s.counter + 1 else 1
    decreases if s.counter > 0 then s.counter else 0
  {
    if Rearms(s) then
      var (final, ticks) := RunToEnd(AfterTick(s));
      (final, ticks + 1)
    else
      (AfterTick(s), 1)
  }

  /** The application window as the countdown sees it. */
  class CountdownWindow {
    var counter: int
    var visible: bool

    function State(): TickState
      reads this
    {
      TickState(counter, visible)
    }

    /** One tick of the countdown timer; `rearm` says whether the timer is
        started again. */
    method Tick() returns (rearm: bool)
      modifies this
      ensures rearm == Rearms(old(State()))
      ensures State() == AfterTick(old(State()))
    {
      if counter > 0 && visible {
        counter := counter - 1;
        rearm := true;
      } else {
        visible := false;
        counter := ResetCounter;
        rearm := false;
      }
    }
  }
}
