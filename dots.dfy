/**
 * One dot of the board (gameboard/Dot.java) and its five states
 * (gameboard/DotState.java). The clock is an explicit `now` argument.
 */
module Dots {
  /** The states a dot passes through; see the timed transitions in the engine. */
  datatype DotState = Visible | Selected | Disappearing | Invisible | Appearing

  /** What the engine can observe of a dot at one instant. */
  datatype DotView = DotView(state: DotState, start: int, cx: real, cy: real)

  /**
   * The effect of `setState(s)` at time `now` on a dot observed as `v`:
   * a different state restarts the state clock, the same state changes nothing.
   */
  function WithState(v: DotView, s: DotState, now: int): (w: DotView)
    ensures w.state == s && w.cx == v.cx && w.cy == v.cy
    ensures w.start == (if v.state == s then v.start else now)
  {
    if v.state != s then v.(state := s, start := now) else v
  }

  /** Setting a state twice is the same as setting it once, whatever the clock says. */
  lemma WithStateIdempotent(v: DotView, s: DotState, now: int, later: int)
    ensures WithState(WithState(v, s, now), s, later) == WithState(v, s, now)
  {
  }

  class Dot {
    // Identity and position never change: the source has no setter for them.
    const id: int
    const row: int
    const col: int

    var centerX: real
    var centerY: real
    var state: DotState
    var stateStartTime: int

    /** A new dot is invisible, centred at the origin, and its state began now. */
    constructor (id: int, row: int, col: int, now: int)
      ensures this.id == id && this.row == row && this.col == col
      ensures View() == DotView(Invisible, now, 0.0, 0.0)
      ensures StateDuration(now) == 0
    {
      this.id := id;
      this.row := row;
      this.col := col;
      centerX := 0.0;
      centerY := 0.0;
      state := Invisible;
      stateStartTime := now;
    }

    ghost function View(): DotView
      reads this
    {
      DotView(state, stateStartTime, centerX, centerY)
    }

    /** How long the dot has been in its current state, at time `now`. */
    function StateDuration(now: int): (d: int)
      reads this
      ensures View().start + d == now
    {
      now - stateStartTime
    }

    predicate IsVisible()
      reads this
      ensures IsVisible() <==> View().state == Visible
    {
      state == Visible
    }

    /** Changing to a different state restarts the state clock at `now`; the same state is a no-op. */
    method SetState(s: DotState, now: int)
      modifies this`state, this`stateStartTime
      ensures View() == WithState(old(View()), s, now)
      ensures old(state) != s ==> StateDuration(now) == 0
      ensures old(state) == s ==> StateDuration(now) == old(StateDuration(now))
      ensures IsVisible() <==> s == Visible
    {
      if state != s {
        state := s;
        stateStartTime := now;
      }
    }

    /** Shifts the state's start forward (pause compensation) without counting as a transition. */
    method IncreaseStateStartTime(time: int)
      modifies this`stateStartTime
      ensures View() == old(View()).(start := old(stateStartTime) + time)
      ensures state == old(state)
      ensures forall now :: StateDuration(now) == old(StateDuration(now)) - time
    {
      stateStartTime := stateStartTime + time;
    }

    method SetCenterX(x: real)
      modifies this`centerX
      ensures View() == old(View()).(cx := x)
    {
      centerX := x;
    }

    method SetCenterY(y: real)
      modifies this`centerY
      ensures View() == old(View()).(cy := y)
    {
      centerY := y;
    }
  }
}
