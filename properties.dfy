/**
 * What the engine rules promise, proved about the functions of module Rules:
 * the chain invariant of the current engine, the effect of each touch, the
 * trailing-line clamp, pause compensation and the board geometry.
 */
module Properties {
  import opened Dots
  import opened Wrappers
  import opened Grid
  import opened Rules

  /**
   * The current engine's chain: positions on the board, each at most once, each
   * showing as selected.
   */
  ghost predicate ChainOk(g: Game)
  {
    WellFormed(g) && Distinct(g.chain) &&
    forall k :: 0 <= k < |g.chain| ==> g.dots[g.chain[k]].state == Selected
  }

  lemma InitChainOk(now: int)
    ensures ChainOk(Init(now)) && !Init(now).gameOver
  {
  }

  /** Selected dots are held by the update pass, so the chain stays selected. */
  lemma TickKeepsChainOk(v: Variant, g: Game, now: int, draws: seq<real>)
    requires ChainOk(g) && |draws| == |g.dots| && Draws(draws)
    ensures ChainOk(Tick(v, g, now, draws))
  {
    TickEffect(v, g, now, draws);
  }

  /** Touches keep the chain invariant of the current engine. */
  lemma TouchKeepsChainOk(g: Game, action: Action, x: real, y: real, now: int)
    requires ChainOk(g)
    ensures ChainOk(OnTouch(Current, g, action, x, y, now))
  {
    if !g.block {
      match action
      case Down =>
        var h := FirstHit(g.dots, x, y, g.radius * DownReach);
        if h.Some? {
          PushKeepsChainOk(g.(lineX := x, lineY := y, interacting := true), h.value, now);
        }
      case Move =>
        var g1 := Trail(g, x, y);
        if g1.chain != [] {
          var h := FirstHit(g1.dots, x, y, g1.radius * MoveReach);
          if h.Some? && h.value !in g1.chain && Adjacent(h.value, Last(g1.chain)) {
            PushKeepsChainOk(g1, h.value, now);
          }
        }
      case Up =>
      case Outside =>
      case Other(_) =>
    }
  }

  /** Pushing a visible dot: it was not in the chain, since chained dots are selected. */
  lemma PushKeepsChainOk(g: Game, i: int, now: int)
    requires ChainOk(g) && 0 <= i < |g.dots| && g.dots[i].state == Visible
    ensures ChainOk(Push(Current, g, i, now))
  {
    var r := Push(Current, g, i, now);
    assert i !in g.chain;
    forall k | 0 <= k < |r.chain|
      ensures r.dots[r.chain[k]].state == Selected
    {
      if k < |g.chain| {
        assert r.chain[k] == g.chain[k] != i;
      }
    }
  }

  /** Pause, resume and resize leave the chain and the dot states alone. */
  lemma LifecycleKeepsChainOk(v: Variant, g: Game, now: int, width: int, height: int)
    requires ChainOk(g)
    ensures ChainOk(Pause(v, g, now)) && ChainOk(Resume(v, g, now)) && ChainOk(Resize(g, width, height))
  {
  }

  /** Nothing but the update pass ever sets game over, and nothing ever clears it. */
  lemma GameOverSticks(v: Variant, g: Game, action: Action, x: real, y: real, now: int, width: int, height: int)
    requires WellFormed(g)
    ensures OnTouch(v, g, action, x, y, now).gameOver == g.gameOver
    ensures Pause(v, g, now).gameOver == g.gameOver && Resume(v, g, now).gameOver == g.gameOver
    ensures Resize(g, width, height).gameOver == g.gameOver
    ensures OnTouch(v, g, action, x, y, now).missed == g.missed
  {
    if !(v == Current && g.block) {
      match action
      case Down =>
        assert OnTouch(v, g, action, x, y, now) == TouchDown(v, g, x, y, now);
      case Move =>
        assert OnTouch(v, g, action, x, y, now) == TouchMove(v, g, x, y, now);
      case Up =>
      case Outside =>
      case Other(_) =>
    }
  }

  /** The current engine ignores every touch while paused. */
  lemma PausedIgnoresTouches(g: Game, action: Action, x: real, y: real, now: int)
    requires WellFormed(g) && g.block
    ensures OnTouch(Current, g, action, x, y, now) == g
  {
  }

  /** The older engine handles touches the same whether or not it is paused. */
  lemma LegacyIgnoresPause(g: Game, action: Action, x: real, y: real, now: int)
    requires WellFormed(g)
    ensures OnTouch(Legacy, g, action, x, y, now).(block := false) ==
            OnTouch(Legacy, g.(block := false), action, x, y, now)
  {
    match action
    case Down => DownIgnoresBlock(g, x, y, now);
    case Move => MoveIgnoresBlock(g, x, y, now);
    case Up =>
    case Outside =>
    case Other(_) =>
  }

  /** The older engine's touch down neither reads nor writes the pause flag. */
  lemma DownIgnoresBlock(g: Game, x: real, y: real, now: int)
    requires WellFormed(g)
    ensures TouchDown(Legacy, g, x, y, now).(block := false) == TouchDown(Legacy, g.(block := false), x, y, now)
  {
    assert FirstHit(g.dots, x, y, g.radius * DownReach) == FirstHit(g.(block := false).dots, x, y, g.radius * DownReach);
  }

  /** The older engine's touch move neither reads nor writes the pause flag. */
  lemma MoveIgnoresBlock(g: Game, x: real, y: real, now: int)
    requires WellFormed(g)
    ensures TouchMove(Legacy, g, x, y, now).(block := false) == TouchMove(Legacy, g.(block := false), x, y, now)
  {
    assert Trail(g.(block := false), x, y) == Trail(g, x, y).(block := false);
  }

  /**
   * Touch down: the trailing point is the touch, the interaction starts, and the first visible
   * dot in row-major order within 1.4 radii is pushed (selected in the current engine, left as
   * it is in the older one).
   */
  lemma TouchDownEffect(v: Variant, g: Game, x: real, y: real, now: int)
    requires WellFormed(g)
    ensures var r := TouchDown(v, g, x, y, now);
      var reach := g.radius * DownReach;
      r.lineX == x && r.lineY == y && r.interacting && r.score == g.score &&
      (FirstHit(g.dots, x, y, reach).None? ==> r.chain == g.chain && r.dots == g.dots) &&
      (FirstHit(g.dots, x, y, reach).Some? ==>
        var i := FirstHit(g.dots, x, y, reach).value;
        r.chain == g.chain + [i] && g.dots[i].state == Visible && Within(g.dots[i], x, y, reach) &&
        (v == Current ==> r.dots == g.dots[i := WithState(g.dots[i], Selected, now)]) &&
        (v == Legacy ==> r.dots == g.dots))
  {
  }

  /**
   * Touch move adds at most one dot: a visible dot within one radius of the touch, not yet in
   * the chain and next to its top; with an empty chain nothing at all is added.
   */
  lemma TouchMoveAddsAtMostOne(v: Variant, g: Game, x: real, y: real, now: int)
    requires WellFormed(g)
    ensures var r := TouchMove(v, g, x, y, now);
      r.score == g.score && r.missed == g.missed && r.interacting == g.interacting &&
      (r.chain == g.chain ==> r.dots == g.dots) &&
      (r.chain != g.chain ==>
        g.chain != [] && |r.chain| == |g.chain| + 1 && r.chain[..|g.chain|] == g.chain &&
        var i := Last(r.chain);
        0 <= i < |g.dots| && i !in g.chain && Adjacent(i, Last(g.chain)) &&
        g.dots[i].state == Visible && Within(g.dots[i], x, y, g.radius * MoveReach) &&
        (forall j :: 0 <= j < i ==> !Hit(g.dots[j], x, y, g.radius * MoveReach)) &&
        (v == Current ==> r.dots == g.dots[i := WithState(g.dots[i], Selected, now)]) &&
        (v == Legacy ==> r.dots == g.dots))
  {
    var r := TouchMove(v, g, x, y, now);
    if r.chain != g.chain {
      assert r.chain[..|g.chain|] == g.chain;
    }
  }

  /**
   * Touch up: the chain's length squared is added to the score (nothing for an empty chain),
   * every chained dot starts disappearing, every other dot is untouched, and the chain empties.
   */
  lemma TouchUpEffect(g: Game, now: int)
    ensures var r := TouchUp(g, now);
      r.score == g.score + |g.chain| * |g.chain| && r.chain == [] && !r.interacting &&
      |r.dots| == |g.dots| &&
      (forall i :: 0 <= i < |g.dots| && i in g.chain ==>
        r.dots[i].state == Disappearing &&
        r.dots[i].start == (if g.dots[i].state == Disappearing then g.dots[i].start else now)) &&
      (forall i :: 0 <= i < |g.dots| && i !in g.chain ==> r.dots[i] == g.dots[i])
  {
  }

  /** Touch outside drops the chain without scoring it; the chained dots keep their state. */
  lemma TouchOutsideEffect(g: Game)
    ensures var r := TouchOutside(g);
      r.chain == [] && !r.interacting && r.score == g.score && r.dots == g.dots
  {
  }

  /** Every link of the chain joins neighbouring positions. */
  ghost predicate Linked(chain: seq<int>)
  {
    forall k :: 1 <= k < |chain| ==> Adjacent(chain[k - 1], chain[k])
  }

  /** A new game in which the first and the last dot are showing, both centred at the origin. */
  function TwoShown(): Game
  {
    var g := Init(0);
    g.(dots := g.dots[0 := g.dots[0].(state := Visible)][35 := g.dots[35].(state := Visible)])
  }

  /** The first dot hit is the hit dot that every earlier dot misses. */
  lemma FirstHitIs(dots: seq<DotView>, x: real, y: real, reach: real, i: int)
    requires 0 <= i < |dots| && Hit(dots[i], x, y, reach)
    requires forall j :: 0 <= j < i ==> !Hit(dots[j], x, y, reach)
    ensures FirstHit(dots, x, y, reach) == Some(i)
  {
    var h := FirstHit(dots, x, y, reach);
    assert h.Some?;
    assert !(h.value < i) && !(h.value > i);
  }

  /** A touch down at the origin on a board whose only showing dot there from index `i` on is `i`. */
  lemma DownAt(v: Variant, g: Game, i: int, now: int)
    requires WellFormed(g) && !g.block && 0 <= i < NumberOfDots && g.radius == 1.0
    requires g.dots[i].state == Visible && g.dots[i].cx == 0.0 && g.dots[i].cy == 0.0
    requires forall j :: 0 <= j < i ==> g.dots[j].state != Visible
    ensures OnTouch(v, g, Down, 0.0, 0.0, now) == Push(v, g.(lineX := 0.0, lineY := 0.0, interacting := true), i, now)
  {
    FirstHitIs(g.dots, 0.0, 0.0, g.radius * DownReach, i);
  }

  /**
   * As written, a cancelled touch (action code 3, which no case handles) leaves its chain in
   * place, and the next touch down pushes onto it: dots 0 and 35, opposite corners, end up
   * chained one after the other.
   */
  lemma CancelledChainIsExtended()
    ensures var g1 := OnTouch(Current, TwoShown(), Down, 0.0, 0.0, 1);
      var g2 := OnTouch(Current, g1, Other(3), 0.0, 0.0, 2);
      var g3 := OnTouch(Current, g2, Down, 0.0, 0.0, 3);
      ChainOk(g3) && g3.chain == [0, 35] && !Adjacent(0, 35) && !Linked(g3.chain)
  {
    var g0 := TwoShown();
    DownAt(Current, g0, 0, 1);
    var g1 := Push(Current, g0.(lineX := 0.0, lineY := 0.0, interacting := true), 0, 1);
    assert OnTouch(Current, g1, Other(3), 0.0, 0.0, 2) == g1;
    assert forall j :: 0 < j < NumberOfDots ==> g1.dots[j] == g0.dots[j];
    DownAt(Current, g1, 35, 3);
    var g3 := Push(Current, g1.(lineX := 0.0, lineY := 0.0, interacting := true), 35, 3);
    assert g3.chain == [0, 35];
    assert g3.dots[0].state == Selected && g3.dots[35].state == Selected;
    assert Row(35) == 5;
    assert !Adjacent(g3.chain[0], g3.chain[1]);
  }

  /**
   * As written, the older engine neither selects a chained dot nor clears a cancelled chain, so a
   * second touch down on the same dot chains it twice.
   */
  lemma LegacyChainRepeats()
    ensures var g1 := OnTouch(Legacy, TwoShown(), Down, 0.0, 0.0, 1);
      var g2 := OnTouch(Legacy, g1, Other(3), 0.0, 0.0, 2);
      var g3 := OnTouch(Legacy, g2, Down, 0.0, 0.0, 3);
      g3.chain == [0, 0] && !Distinct(g3.chain)
  {
    var g0 := TwoShown();
    DownAt(Legacy, g0, 0, 1);
    var g1 := Push(Legacy, g0.(lineX := 0.0, lineY := 0.0, interacting := true), 0, 1);
    assert OnTouch(Legacy, g1, Other(3), 0.0, 0.0, 2) == g1;
    DownAt(Legacy, g1, 0, 3);
    var g3 := Push(Legacy, g1.(lineX := 0.0, lineY := 0.0, interacting := true), 0, 3);
    assert g3.chain == [0, 0] && g3.chain[0] == g3.chain[1];
  }

  /**
   * When a touch down starts a new chain, both engines keep every chain linked (each dot next to
   * the one before it) and free of repeats.
   */
  lemma NewChainKeepsLinked(v: Variant, g: Game, action: Action, x: real, y: real, now: int)
    requires WellFormed(g) && Linked(g.chain) && Distinct(g.chain)
    ensures var r := OnTouchNewChain(v, g, action, x, y, now);
      Linked(r.chain) && Distinct(r.chain)
  {
    if !(v == Current && g.block) {
      match action
      case Down =>
        var h := FirstHit(g.dots, x, y, g.radius * DownReach);
        assert OnTouchNewChain(v, g, action, x, y, now).chain == if h.Some? then [h.value] else [];
      case Move =>
        MoveKeepsLinked(v, g, x, y, now);
      case Up =>
      case Outside =>
      case Other(_) =>
    }
  }

  /** Touch move pushes only a new dot next to the top, so a linked chain without repeats stays so. */
  lemma MoveKeepsLinked(v: Variant, g: Game, x: real, y: real, now: int)
    requires WellFormed(g) && Linked(g.chain) && Distinct(g.chain)
    ensures var r := TouchMove(v, g, x, y, now);
      Linked(r.chain) && Distinct(r.chain)
  {
    var r := TouchMove(v, g, x, y, now);
    TouchMoveAddsAtMostOne(v, g, x, y, now);
    if r.chain != g.chain {
      var i := Last(r.chain);
      assert r.chain == g.chain + [i];
      assert Adjacent(Last(g.chain), i);
      forall k | 1 <= k < |r.chain|
        ensures Adjacent(r.chain[k - 1], r.chain[k])
      {
        if k < |g.chain| {
          assert r.chain[k - 1] == g.chain[k - 1] && r.chain[k] == g.chain[k];
        }
      }
    }
  }

  /**
   * One coordinate of a clamped line ending at `q`, from `start` toward `end`, scaled by `L / m`:
   * unchanged from `previous` when there is no offset on this axis; otherwise on the side of
   * `end`, proportional to the touch's offset, and no farther than `L` from the start.
   */
  ghost predicate AxisClamped(start: real, end: real, q: real, m: real, L: real, previous: real)
  {
    (start == end ==> q == previous) &&
    (start != end ==> (q - start) * m == (end - start) * L && AbsR(q - start) <= L)
  }

  /** Within reach, the trailing line ends at the touch. */
  lemma ClampWithin(sx: real, sy: real, x: real, y: real, L: real, px: real, py: real)
    requires AbsR(sx - x) <= L && AbsR(sy - y) <= L
    ensures Clamp(sx, sy, x, y, L, px, py) == (x, y)
  {
  }

  /**
   * Beyond reach, both offsets shrink by the same factor, so the longer one is exactly the
   * maximum length; each moved coordinate stays on the touch's side of the start, and an axis
   * without offset keeps its old value.
   */
  lemma ClampBeyond(sx: real, sy: real, x: real, y: real, L: real, px: real, py: real)
    requires L > 0.0 && (AbsR(sx - x) > L || AbsR(sy - y) > L)
    ensures var q := Clamp(sx, sy, x, y, L, px, py);
      var dx, dy := AbsR(sx - x), AbsR(sy - y);
      var m := if dx >= dy then dx else dy;
      m > 0.0 && AxisClamped(sx, x, q.0, m, L, px) && AxisClamped(sy, y, q.1, m, L, py) &&
      (dx >= dy ==> AbsR(q.0 - sx) == L) &&
      (dy >= dx ==> AbsR(q.1 - sy) == L)
  {
    var dx, dy := AbsR(sx - x), AbsR(sy - y);
    var m := if dx >= dy then dx else dy;
    ScaledOffset(sx, x, dx, m, L, px);
    ScaledOffset(sy, y, dy, m, L, py);
  }

  /** One axis of the clamp: the shrunk offset placed on the touch's side. */
  lemma ScaledOffset(start: real, end: real, diff: real, m: real, L: real, previous: real)
    requires diff == AbsR(start - end) && 0.0 <= diff <= m && m > 0.0 && L > 0.0
    ensures AxisClamped(start, end, Toward(start, end, Shrink(diff, m, L), previous), m, L, previous)
    ensures diff == m ==> AbsR(Toward(start, end, Shrink(diff, m, L), previous) - start) == L
  {
    ScaleBound(diff, m, L);
    var o := Shrink(diff, m, L);
    var q := Toward(start, end, o, previous);
    if start - end > 0.0 {
      assert q - start == -o && end - start == -diff;
      assert (-o) * m == -(o * m);
      assert (-diff) * L == -(diff * L);
    } else if start - end < 0.0 {
      assert q - start == o && end - start == diff;
    }
  }

  /** Scaling an offset no longer than `m` by `L / m` gives an offset no longer than `L`. */
  lemma ScaleBound(diff: real, m: real, L: real)
    requires 0.0 <= diff <= m && m > 0.0 && L > 0.0
    ensures 0.0 <= Shrink(diff, m, L) <= L && Shrink(diff, m, L) * m == diff * L
    ensures diff == m ==> Shrink(diff, m, L) == L
  {
    var o := diff * L / m;
    assert o * m == diff * L;
    assert (m - diff) * L >= 0.0;
  }

  /**
   * Resuming gives visible dots back the paused time: at resume they have been visible exactly
   * as long as they had been when the game was paused. The older engine shifts nothing.
   */
  lemma ResumeCompensates(g: Game, paused: int, resumed: int)
    ensures var r := Resume(Current, Pause(Current, g, paused), resumed);
      !r.block && |r.dots| == |g.dots| &&
      forall i :: 0 <= i < |g.dots| ==>
        r.dots[i].state == g.dots[i].state &&
        (g.dots[i].state == Visible ==> resumed - r.dots[i].start == paused - g.dots[i].start) &&
        (g.dots[i].state != Visible ==> r.dots[i] == g.dots[i])
    ensures Resume(Legacy, Pause(Legacy, g, paused), resumed) == g.(block := false)
  {
  }

  /** Resizing: radius is a third of the region, the line limit one and a half regions. */
  lemma ResizeGeometry(g: Game, width: int, height: int)
    ensures var r := Resize(g, width, height);
      r.region * 6.0 == (if height < width then height else width) as real &&
      r.radius * 3.0 == r.region && r.maxLine == 1.5 * r.region &&
      |r.dots| == |g.dots| &&
      forall i :: 0 <= i < |g.dots| ==>
        r.dots[i].state == g.dots[i].state && r.dots[i].start == g.dots[i].start &&
        r.dots[i] == Centred(g.dots[i], Row(i), Col(i), r.region)
  {
  }

  /**
   * After a resize the touch-down hit boxes (1.4 radii, that is 0.4667 of a region on each
   * side of a centre) of two different dots never overlap: a touch hits at most one dot.
   */
  lemma HitBoxesDisjoint(g: Game, width: int, height: int, x: real, y: real, i: int, j: int)
    requires |g.dots| == NumberOfDots && 0 <= i < NumberOfDots && 0 <= j < NumberOfDots && i != j
    requires height > 0 && width > 0
    ensures var r := Resize(g, width, height);
      !(Within(r.dots[i], x, y, r.radius * DownReach) && Within(r.dots[j], x, y, r.radius * DownReach))
  {
    var r := Resize(g, width, height);
    assert r.dots[i] == Centred(g.dots[i], Row(i), Col(i), r.region);
    assert r.dots[j] == Centred(g.dots[j], Row(j), Col(j), r.region);
    PositionsDiffer(i, j);
    CentresApart(g.dots[i], g.dots[j], Row(i), Col(i), Row(j), Col(j), r.region, x, y, r.radius * DownReach);
  }

  /** Different indices are different (row, column) positions. */
  lemma PositionsDiffer(i: int, j: int)
    requires 0 <= i && 0 <= j && i != j
    ensures Row(i) != Row(j) || Col(i) != Col(j)
  {
  }

  /** The squares of `reach` around the centres of two different positions do not meet. */
  lemma CentresApart(a: DotView, b: DotView, ri: int, ci: int, rj: int, cj: int, region: real,
                     x: real, y: real, reach: real)
    requires ri != rj || ci != cj
    requires region > 0.0 && 2.0 * reach < region
    ensures !(Within(Centred(a, ri, ci, region), x, y, reach) && Within(Centred(b, rj, cj, region), x, y, reach))
  {
    var p1, q1 := Offset(ri, region), Offset(ci, region);
    var p2, q2 := Offset(rj, region), Offset(cj, region);
    if ri != rj {
      CentreGap(ri, rj, region);
      NoPointNearBoth(p1, p2, x, reach, region);
    } else {
      CentreGap(ci, cj, region);
      NoPointNearBoth(q1, q2, y, reach, region);
    }
    assert Centred(a, ri, ci, region).cx == p1 && Centred(a, ri, ci, region).cy == q1;
    assert Centred(b, rj, cj, region).cx == p2 && Centred(b, rj, cj, region).cy == q2;
  }

  /** Centres of different rows (or columns) are at least a region apart. */
  lemma CentreGap(a: int, b: int, region: real)
    requires a != b && region > 0.0
    ensures AbsR(Offset(a, region) - Offset(b, region)) >= region
  {
    var k := a - b;
    assert Offset(a, region) - Offset(b, region) == k as real * region;
    if k >= 1 {
      assert (k - 1) as real * region >= 0.0;
    } else {
      assert (-k - 1) as real * region >= 0.0;
    }
  }

  /** No point lies within `reach` of two points a region apart, when twice the reach is short of it. */
  lemma NoPointNearBoth(p: real, q: real, x: real, reach: real, region: real)
    requires AbsR(p - q) >= region && 2.0 * reach < region
    ensures !(AbsR(x - p) <= reach && AbsR(x - q) <= reach)
  {
  }
}
