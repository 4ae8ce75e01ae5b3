/**
 * The rules of the game engine, as pure functions on a snapshot of everything the
 * engine holds. Two versions of the engine exist: the current one (engine/GameThread.java)
 * and an older one (the GameThread nested in GameSurfaceView.java); `Variant` tells them apart
 * where they differ.
 */
module Rules {
  import opened Dots
  import opened Wrappers
  import opened Grid

  const GridLength: int := 6
  const NumberOfDots: int := 36
  const DotsToMiss: int := 15
  /** How long a dot takes to appear or disappear. */
  const DurationAnimation: int := 100
  /** How long a dot stays visible before it counts as missed. */
  const DurationVisible: int := 2000
  /** How long a dot stays invisible before it may appear again. */
  const DurationHidden: int := 2000
  /** A hidden dot appears when `(int) (Math.random() * 800) == 1`. */
  const SpawnRange: nat := 800
  /** Hit-box factors of the radius: generous on touch down, exact while moving. */
  const DownReach: real := 1.4
  const MoveReach: real := 1.0

  datatype Variant = Current | Legacy

  /** The motion event kinds the engines dispatch on; any other kind is ignored. */
  datatype Action = Down | Up | Move | Outside | Other(code: int)

  /**
   * Everything an engine holds: the dots by row-major index, the chain of selected
   * dots as a stack of indices (top last), the trailing line's end point, the
   * counters and flags, and the canvas measurements.
   */
  datatype Game = Game(
    dots: seq<DotView>,
    chain: seq<int>,
    interacting: bool,
    lineX: real,
    lineY: real,
    score: int,
    missed: int,
    run: bool,
    gameOver: bool,
    block: bool,
    pausedAt: int,
    width: int,
    height: int,
    length: real,
    region: real,
    radius: real,
    maxLine: real)

  function Row(i: int): int { i / 6 }
  function Col(i: int): int { i % 6 }

  function AbsR(x: real): real { if x < 0.0 then -x else x }

  function Last(s: seq<int>): int
    requires s != []
  {
    s[|s| - 1]
  }

  /** A full board, and a chain made of positions on it. */
  ghost predicate WellFormed(g: Game)
  {
    |g.dots| == NumberOfDots && forall k :: 0 <= k < |g.chain| ==> 0 <= g.chain[k] < NumberOfDots
  }

  /** The engine as its constructor leaves it: every dot hidden since `now`, nothing scored. */
  function Init(now: int): (g: Game)
    ensures WellFormed(g) && g.chain == [] && g.score == 0 && g.missed == 0
    ensures !g.run && !g.gameOver && !g.block && !g.interacting
    ensures forall i :: 0 <= i < |g.dots| ==> g.dots[i].state == Invisible && g.dots[i].start == now
  {
    Game(seq(NumberOfDots, i => DotView(Invisible, now, 0.0, 0.0)), [], false, 0.0, 0.0, 0, 0,
         false, false, false, 0, 1, 1, 1.0, 1.0, 1.0, 1.0)
  }

  // ---------------------------------------------------------------- the timed transitions

  /** The next state in the cycle visible, disappearing, invisible, appearing. */
  function Successor(s: DotState): DotState
  {
    match s
    case Visible => Disappearing
    case Disappearing => Invisible
    case Invisible => Appearing
    case Appearing => Visible
    case Selected => Selected
  }

  /** The random draw lets a hidden dot appear. */
  predicate Spawns(draw: real)
    requires 0.0 <= draw < 1.0
  {
    Pick(draw, SpawnRange) == 1
  }

  /** The one-in-800 chance: a draw spawns exactly when it falls in [1/800, 2/800). */
  lemma SpawnsExactly(draw: real)
    requires 0.0 <= draw < 1.0
    ensures Spawns(draw) <==> 1.0 / 800.0 <= draw < 2.0 / 800.0
  {
    var t := draw * 800.0;
    assert Pick(draw, SpawnRange) == t.Floor;
    if 1.0 <= t < 2.0 {
      assert t.Floor == 1;
    }
  }

  predicate TimesOut(d: DotView, now: int)
  {
    d.state == Visible && now - d.start > DurationVisible
  }

  /** What one frame does to one dot at time `now` (the body of the update loop). */
  function Advance(d: DotView, now: int, draw: real): (w: DotView)
    requires 0.0 <= draw < 1.0
    ensures w.cx == d.cx && w.cy == d.cy
    ensures w == d || w == WithState(d, Successor(d.state), now)
    ensures d.state == Selected ==> w == d
    ensures d.state == Visible ==> (w != d <==> now - d.start > DurationVisible)
    ensures d.state in {Appearing, Disappearing} ==> (w != d <==> now - d.start > DurationAnimation)
    ensures d.state == Invisible ==> (w != d <==> now - d.start > DurationHidden && Spawns(draw))
  {
    var age := now - d.start;
    match d.state
    case Selected => d
    case Visible => if age > DurationVisible then WithState(d, Disappearing, now) else d
    case Disappearing => if age > DurationAnimation then WithState(d, Invisible, now) else d
    case Invisible => if age > DurationHidden && Spawns(draw) then WithState(d, Appearing, now) else d
    case Appearing => if age > DurationAnimation then WithState(d, Visible, now) else d
  }

  /** Every change of state restarts the dot's clock and moves it one step round the cycle. */
  lemma AdvanceMovesOneStep(d: DotView, now: int, draw: real)
    requires 0.0 <= draw < 1.0
    ensures var w := Advance(d, now, draw);
      w.state != d.state ==> w.state == Successor(d.state) && w.start == now && d.state != Selected
  {
  }

  predicate Draws(draws: seq<real>)
  {
    forall i :: 0 <= i < |draws| ==> 0.0 <= draws[i] < 1.0
  }

  /** The missed counter and the flags after the dot at index `i` has been updated. */
  function TickAt(v: Variant, g: Game, now: int, draw: real, i: int): (r: Game)
    requires 0 <= i < |g.dots| && 0.0 <= draw < 1.0
    ensures r.dots == g.dots[i := Advance(g.dots[i], now, draw)]
    ensures r.(dots := g.dots, missed := g.missed, run := g.run, gameOver := g.gameOver) == g
    ensures var out := TimesOut(g.dots[i], now);
      r.missed == g.missed + (if out then 1 else 0) &&
      r.run == (g.run && !(out && r.missed >= DotsToMiss)) &&
      r.gameOver == (g.gameOver || (v == Current && out && r.missed >= DotsToMiss))
  {
    var d := g.dots[i];
    var g1 := g.(dots := g.dots[i := Advance(d, now, draw)]);
    if TimesOut(d, now) then Miss(v, g1) else g1
  }

  /**
   * A visible dot ran out of time: one more miss, and the fifteenth stops the run; only the
   * current engine also records game over.
   */
  function Miss(v: Variant, g: Game): (r: Game)
    ensures r.missed == g.missed + 1
    ensures r.run == (g.run && r.missed < DotsToMiss)
    ensures r.gameOver == (g.gameOver || (v == Current && r.missed >= DotsToMiss))
    ensures r.(missed := g.missed, run := g.run, gameOver := g.gameOver) == g
  {
    if g.missed + 1 >= DotsToMiss then
      g.(missed := g.missed + 1, run := false, gameOver := v == Current || g.gameOver)
    else
      g.(missed := g.missed + 1)
  }

  /** The update pass over the first `k` dots in row-major order. */
  function TickUpTo(v: Variant, g: Game, now: int, draws: seq<real>, k: nat): (r: Game)
    requires k <= |g.dots| == |draws| && Draws(draws)
    ensures |r.dots| == |g.dots|
    ensures forall j :: 0 <= j < |g.dots| ==>
      r.dots[j] == if j < k then Advance(g.dots[j], now, draws[j]) else g.dots[j]
    ensures r.(dots := g.dots, missed := g.missed, run := g.run, gameOver := g.gameOver) == g
  {
    if k == 0 then g else TickAt(v, TickUpTo(v, g, now, draws, k - 1), now, draws[k - 1], k - 1)
  }

  /** `updateState`: one frame's pass over the whole board, one random draw per dot. */
  function Tick(v: Variant, g: Game, now: int, draws: seq<real>): Game
    requires |g.dots| == |draws| && Draws(draws)
  {
    TickUpTo(v, g, now, draws, |g.dots|)
  }

  /** The number of dots among the first `k` whose visible time has run out. */
  function CountTimeouts(dots: seq<DotView>, now: int, k: nat): nat
    requires k <= |dots|
  {
    if k == 0 then 0 else CountTimeouts(dots, now, k - 1) + (if TimesOut(dots[k - 1], now) then 1 else 0)
  }

  /**
   * Missed dots grow by exactly the number of visible dots that timed out; the game stops
   * once a timeout brings the count to 15, and only the current engine records game over.
   */
  lemma {:induction false} TickCounts(v: Variant, g: Game, now: int, draws: seq<real>, k: nat)
    requires k <= |g.dots| == |draws| && Draws(draws)
    ensures var r := TickUpTo(v, g, now, draws, k);
      var n := CountTimeouts(g.dots, now, k);
      r.missed == g.missed + n &&
      r.run == (g.run && !(n > 0 && r.missed >= DotsToMiss)) &&
      r.gameOver == (g.gameOver || (v == Current && n > 0 && r.missed >= DotsToMiss))
  {
    if k > 0 {
      TickCounts(v, g, now, draws, k - 1);
      var p := TickUpTo(v, g, now, draws, k - 1);
      assert p.dots[k - 1] == g.dots[k - 1];
      assert TickUpTo(v, g, now, draws, k) == TickAt(v, p, now, draws[k - 1], k - 1);
    }
  }

  /** `updateState` over the whole board, dot by dot: the promise of the timed transitions. */
  lemma TickEffect(v: Variant, g: Game, now: int, draws: seq<real>)
    requires |g.dots| == |draws| && Draws(draws)
    ensures var r := Tick(v, g, now, draws);
      var n := CountTimeouts(g.dots, now, |g.dots|);
      (forall j :: 0 <= j < |g.dots| ==> r.dots[j] == Advance(g.dots[j], now, draws[j])) &&
      r.missed == g.missed + n && r.chain == g.chain && r.score == g.score &&
      (v == Legacy ==> r.gameOver == g.gameOver) &&
      (g.gameOver ==> r.gameOver) &&
      (v == Current && r.missed >= DotsToMiss && n > 0 ==> r.gameOver && !r.run)
  {
    TickCounts(v, g, now, draws, |g.dots|);
  }

  // ---------------------------------------------------------------- touches

  /** The square hit box of `isTouchWithinDot`: both offsets within `reach`. */
  predicate Within(d: DotView, x: real, y: real, reach: real)
  {
    AbsR(x - d.cx) <= reach && AbsR(y - d.cy) <= reach
  }

  /** Only a visible dot can be touched. */
  predicate Hit(d: DotView, x: real, y: real, reach: real)
  {
    d.state == Visible && Within(d, x, y, reach)
  }

  function FirstHitFrom(dots: seq<DotView>, x: real, y: real, reach: real, k: nat): (h: Option<int>)
    requires k <= |dots|
    ensures h.Some? ==> (k <= h.value < |dots| && Hit(dots[h.value], x, y, reach) &&
      forall j :: k <= j < h.value ==> !Hit(dots[j], x, y, reach))
    ensures h.None? ==> forall j :: k <= j < |dots| ==> !Hit(dots[j], x, y, reach)
    decreases |dots| - k
  {
    if k == |dots| then None
    else if Hit(dots[k], x, y, reach) then Some(k)
    else FirstHitFrom(dots, x, y, reach, k + 1)
  }

  /** The first dot in row-major order that the touch hits, if any. */
  function FirstHit(dots: seq<DotView>, x: real, y: real, reach: real): (h: Option<int>)
    ensures h.Some? ==> (0 <= h.value < |dots| && Hit(dots[h.value], x, y, reach) &&
      forall j :: 0 <= j < h.value ==> !Hit(dots[j], x, y, reach))
    ensures h.None? ==> forall j :: 0 <= j < |dots| ==> !Hit(dots[j], x, y, reach)
  {
    FirstHitFrom(dots, x, y, reach, 0)
  }

  /** `isDotAdjacent`: at most one row and one column apart (the dot itself included). */
  predicate Adjacent(i: int, j: int)
  {
    Chebyshev(Row(i), Col(i), Row(j), Col(j)) <= 1
  }

  /** `addDotToChain`: push; the current engine also marks the dot selected. */
  function Push(v: Variant, g: Game, i: int, now: int): (r: Game)
    requires 0 <= i < |g.dots|
  {
    g.(chain := g.chain + [i],
       dots := if v == Current then g.dots[i := WithState(g.dots[i], Selected, now)] else g.dots)
  }

  /** Where one coordinate of the trailing line ends: toward the touch, or unchanged at zero offset. */
  function Toward(start: real, end: real, offset: real, previous: real): real
  {
    if start - end > 0.0 then start - offset
    else if start - end < 0.0 then start + offset
    else previous
  }

  /**
   * The end of a trailing line from (`sx`, `sy`) toward the touch (`x`, `y`) whose offsets may not
   * exceed `L`: when either does, both shrink by the same factor. The shortened offset
   * `diff / (max / L)` is written `diff * L / max`, which is the same for a non-zero `L` and gives
   * the zero offset that the infinite factor gives when `L` is zero.
   */
  function Clamp(sx: real, sy: real, x: real, y: real, L: real, px: real, py: real): (real, real)
  {
    var dx, dy := AbsR(sx - x), AbsR(sy - y);
    if dx > L || dy > L then
      var m := if dx >= dy then dx else dy;
      (Toward(sx, x, Shrink(dx, m, L), px), Toward(sy, y, Shrink(dy, m, L), py))
    else
      (x, y)
  }

  /** An offset `diff` shrunk by the factor `m / L`. */
  function Shrink(diff: real, m: real, L: real): real
  {
    if m == 0.0 then 0.0 else diff * L / m
  }

  /** `setInteractingCoordinates`: the trailing line starts at the centre of the chain's top. */
  function Trail(g: Game, x: real, y: real): (r: Game)
    requires WellFormed(g)
    ensures r.(lineX := g.lineX, lineY := g.lineY) == g
    ensures g.chain == [] ==> r == g
  {
    if g.chain == [] then g
    else
      var top := g.dots[Last(g.chain)];
      var p := Clamp(top.cx, top.cy, x, y, g.maxLine, g.lineX, g.lineY);
      g.(lineX := p.0, lineY := p.1)
  }

  /** `onTouchDown` */
  function TouchDown(v: Variant, g: Game, x: real, y: real, now: int): (r: Game)
    requires WellFormed(g)
  {
    var h := FirstHit(g.dots, x, y, g.radius * DownReach);
    var g1 := g.(lineX := x, lineY := y, interacting := true);
    if h.Some? then Push(v, g1, h.value, now) else g1
  }

  /** `onTouchMove` */
  function TouchMove(v: Variant, g: Game, x: real, y: real, now: int): (r: Game)
    requires WellFormed(g)
  {
    var g1 := Trail(g, x, y);
    if g1.chain == [] then g1
    else
      var h := FirstHit(g1.dots, x, y, g1.radius * MoveReach);
      if h.Some? && h.value !in g1.chain && Adjacent(h.value, Last(g1.chain)) then
        Push(v, g1, h.value, now)
      else
        g1
  }

  /** The score a released chain is worth: its length squared, nothing for an empty chain. */
  function ChainScore(score: int, length: nat): int
  {
    if length > 0 then score + length * length else score
  }

  /** The dots of the chain start disappearing; the others are untouched. */
  function Hide(dots: seq<DotView>, chain: seq<int>, now: int): (r: seq<DotView>)
    ensures |r| == |dots|
    ensures forall i :: 0 <= i < |dots| ==>
      r[i] == if i in chain then WithState(dots[i], Disappearing, now) else dots[i]
  {
    seq(|dots|, i requires 0 <= i < |dots| => if i in chain then WithState(dots[i], Disappearing, now) else dots[i])
  }

  /** `onTouchUp` */
  function TouchUp(g: Game, now: int): (r: Game)
  {
    g.(score := ChainScore(g.score, |g.chain|), dots := Hide(g.dots, g.chain, now), chain := [],
       interacting := false)
  }

  /** `onTouchOutside` */
  function TouchOutside(g: Game): (r: Game)
  {
    g.(chain := [], interacting := false)
  }

  /** `onTouch`: the current engine ignores every touch while paused; the older one never does. */
  function OnTouch(v: Variant, g: Game, action: Action, x: real, y: real, now: int): (r: Game)
    requires WellFormed(g)
  {
    if v == Current && g.block then g
    else
      match action
      case Down => TouchDown(v, g, x, y, now)
      case Up => TouchUp(g, now)
      case Move => TouchMove(v, g, x, y, now)
      case Outside => TouchOutside(g)
      case Other(_) => g
  }

  /**
   * Touch handling in which a touch down starts a new chain instead of extending one that a
   * cancelled touch left behind; every other action is handled as `OnTouch` handles it.
   */
  function OnTouchNewChain(v: Variant, g: Game, action: Action, x: real, y: real, now: int): (r: Game)
    requires WellFormed(g)
    ensures action != Down || (v == Current && g.block) ==> r == OnTouch(v, g, action, x, y, now)
    ensures action == Down && !(v == Current && g.block) ==> r == OnTouch(v, g.(chain := []), action, x, y, now)
  {
    if action == Down && !(v == Current && g.block) then TouchDown(v, g.(chain := []), x, y, now)
    else OnTouch(v, g, action, x, y, now)
  }

  // ---------------------------------------------------------------- pause, resume, resize

  /** `onPause`: block the loop; the current engine also remembers when. */
  function Pause(v: Variant, g: Game, now: int): (r: Game)
  {
    g.(block := true, pausedAt := if v == Current then now else g.pausedAt)
  }

  /** Visible dots get the paused time added to their start. */
  function Shift(dots: seq<DotView>, time: int): (r: seq<DotView>)
    ensures |r| == |dots|
    ensures forall i :: 0 <= i < |dots| ==>
      r[i] == if dots[i].state == Visible then dots[i].(start := dots[i].start + time) else dots[i]
  {
    seq(|dots|, i requires 0 <= i < |dots| =>
      if dots[i].state == Visible then dots[i].(start := dots[i].start + time) else dots[i])
  }

  /** `onResume`: unblock; the current engine also gives visible dots back the paused time. */
  function Resume(v: Variant, g: Game, now: int): (r: Game)
  {
    if v == Current then g.(block := false, dots := Shift(g.dots, now - g.pausedAt))
    else g.(block := false)
  }

  /** The side of a dot's square region for a canvas whose smaller side is `length`. */
  function Region(width: int, height: int): real
  {
    (if height < width then height else width) as real / GridLength as real
  }

  /** A dot centred in the square of row `row` and column `col`: x follows the row, y the column. */
  function Centred(d: DotView, row: int, col: int, region: real): DotView
  {
    d.(cx := Offset(row, region), cy := Offset(col, region))
  }

  /** The middle of the `i`-th square of side `region` along one axis. */
  function Offset(i: int, region: real): real
  {
    i as real * region + region / 2.0
  }

  /** `onSurfaceChange` (`setSurfaceSize` in the older engine). */
  function Resize(g: Game, width: int, height: int): (r: Game)
  {
    var length := (if height < width then height else width) as real;
    var region := length / GridLength as real;
    g.(width := width, height := height, length := length, region := region,
       radius := region * 2.0 / 3.0 / 2.0, maxLine := 1.5 * region,
       dots := CentreAll(g.dots, region))
  }

  /** Every dot centred in its own square. */
  function CentreAll(dots: seq<DotView>, region: real): (r: seq<DotView>)
    ensures |r| == |dots|
    ensures forall i :: 0 <= i < |dots| ==> r[i] == Centred(dots[i], Row(i), Col(i), region)
  {
    seq(|dots|, i requires 0 <= i < |dots| => Centred(dots[i], Row(i), Col(i), region))
  }
}
