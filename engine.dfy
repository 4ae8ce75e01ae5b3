/**
 * The game engine as an object (engine/GameThread.java, and the older GameThread nested in
 * GameSurfaceView.java when `variant` is `Legacy`): the grid of dots, the chain stack, the
 * trailing line, the counters and flags, and the canvas measurements, all updated in place.
 * Every operation is proved to do to `Model()` what the rules of the same name say.
 */
module Engine {
  import opened Dots
  import opened Wrappers
  import opened Grid
  import opened Rules

  /** The row-major index of a dot of the 6 x 6 board. */
  function Index(d: Dot): int
  {
    d.row * 6 + d.col
  }

  /** The chain stack as row-major indices, bottom first. */
  function Indices(chain: seq<Dot>): (r: seq<int>)
    ensures |r| == |chain| && forall k :: 0 <= k < |chain| ==> r[k] == Index(chain[k])
  {
    seq(|chain|, k requires 0 <= k < |chain| => Index(chain[k]))
  }

  lemma IndicesPush(chain: seq<Dot>, d: Dot)
    ensures Indices(chain + [d]) == Indices(chain) + [Index(d)]
  {
  }

  /** Touch down in the order the engine does it: the line, then the push, then the interaction flag. */
  lemma TouchDownSteps(v: Variant, g: Game, x: real, y: real, now: int, h: Option<int>, pushed: Game)
    requires WellFormed(g) && h == FirstHit(g.dots, x, y, g.radius * DownReach)
    requires h.Some? ==> pushed == Push(v, g.(lineX := x, lineY := y), h.value, now)
    requires h.None? ==> pushed == g.(lineX := x, lineY := y)
    ensures pushed.(interacting := true) == TouchDown(v, g, x, y, now)
  {
  }

  class GameThread {
    const variant: Variant
    const grid: DotGrid
    /** mDotChain: the stack of chained dots, top last. */
    var chain: seq<Dot>
    var interacting: bool
    var lineX: real
    var lineY: real
    var score: int
    var missed: int
    var run: bool
    var gameOver: bool
    var block: bool
    /** mTimePausedLast */
    var pausedAt: int
    var width: int
    var height: int
    var length: real
    var region: real
    var radius: real
    var maxLine: real

    /** A 6 x 6 board whose dots know their row-major index, and a chain made of its dots. */
    ghost predicate Valid()
      reads this, grid.cells
    {
      grid.Valid() && grid.n == GridLength && |grid.Cells| == NumberOfDots &&
      (forall i :: 0 <= i < NumberOfDots ==> Index(grid.Cells[i]) == i) &&
      (forall k :: 0 <= k < |chain| ==> chain[k] in grid.Board)
    }

    /** Everything the engine holds, as the value the rules work on. */
    ghost function Model(): (g: Game)
      requires Valid()
      reads this, grid.cells, grid.Board
      ensures WellFormed(g)
    {
      ChainOnBoard();
      Game(grid.View(), Indices(chain), interacting, lineX, lineY, score, missed, run, gameOver, block,
           pausedAt, width, height, length, region, radius, maxLine)
    }

    /** The model is `g` once every field agrees with it. */
    lemma ModelIs(g: Game)
      requires Valid() && grid.View() == g.dots && Indices(chain) == g.chain
      requires interacting == g.interacting && lineX == g.lineX && lineY == g.lineY
      requires score == g.score && missed == g.missed && run == g.run && gameOver == g.gameOver
      requires block == g.block && pausedAt == g.pausedAt && width == g.width && height == g.height
      requires length == g.length && region == g.region && radius == g.radius && maxLine == g.maxLine
      ensures Model() == g
    {
    }

    /** The dot at index `i` sits in row `Row(i)` and column `Col(i)`. */
    lemma Position(i: int)
      requires Valid() && 0 <= i < NumberOfDots
      ensures grid.Cells[i].row == Row(i) && grid.Cells[i].col == Col(i)
    {
      grid.PositionOf(i);
    }

    /** A dot of the board sits at its own index. */
    lemma OnBoard(d: Dot)
      requires Valid() && d in grid.Board
      ensures 0 <= Index(d) < NumberOfDots && grid.Cells[Index(d)] == d
    {
      grid.OnShape(d);
    }

    lemma ChainOnBoard()
      requires Valid()
      ensures forall k :: 0 <= k < |chain| ==> 0 <= Index(chain[k]) < NumberOfDots && grid.Cells[Index(chain[k])] == chain[k]
    {
      forall k | 0 <= k < |chain| {
        OnBoard(chain[k]);
      }
    }

    /** The constructor: a new board of hidden dots, an empty chain, nothing scored or missed. */
    constructor (v: Variant, now: int)
      ensures Valid() && variant == v && Model() == Init(now)
    {
      variant := v;
      var g := new DotGrid(GridLength, now);
      grid := g;
      chain := [];
      interacting := false;
      lineX, lineY := 0.0, 0.0;
      score, missed := 0, 0;
      run, gameOver, block := false, false, false;
      pausedAt := 0;
      width, height := 1, 1;
      length, region, radius, maxLine := 1.0, 1.0, 1.0, 1.0;
      new;
      forall i | 0 <= i < NumberOfDots
        ensures Index(grid.Cells[i]) == i
      {
        grid.PositionOf(i);
      }
      assert grid.View() == Init(now).dots;
    }

    /** setRunning */
    method SetRunning(b: bool)
      requires Valid()
      modifies this
      ensures Valid() && Model() == old(Model()).(run := b)
    {
      run := b;
    }

    /** isGameOver */
    function IsGameOver(): (over: bool)
      requires Valid()
      reads this, grid.cells, grid.Board
      ensures over == Model().gameOver
    {
      gameOver
    }

    /** isGamePaused */
    function IsGamePaused(): (paused: bool)
      requires Valid()
      reads this, grid.cells, grid.Board
      ensures paused == Model().block
    {
      block
    }

    /** onPause: block the loop; the current engine also notes the time. */
    method OnPause(now: int)
      requires Valid()
      modifies this
      ensures Valid() && Model() == Pause(variant, old(Model()), now)
    {
      block := true;
      if variant == Current {
        pausedAt := now;
      }
    }

    /** onResume: unblock; the current engine gives every visible dot the paused time back. */
    method OnResume(now: int)
      requires Valid()
      modifies this`block, grid.Board
      ensures Valid() && Model() == Resume(variant, old(Model()), now)
    {
      SetBlock(false);
      if variant == Current {
        var timePaused := now - pausedAt;
        ghost var g1 := Model();
        ShiftVisible(timePaused);
        assert Model() == g1.(dots := Shift(g1.dots, timePaused));
      }
    }

    /** mBlock: whether the game is paused. */
    method SetBlock(b: bool)
      requires Valid()
      modifies this`block
      ensures Valid() && Model() == old(Model()).(block := b)
    {
      block := b;
    }

    /** The loop of onResume: every visible dot's state started `time` later. */
    method ShiftVisible(time: int)
      requires Valid()
      modifies grid.Board
      ensures Valid() && grid.View() == Shift(old(grid.View()), time)
    {
      ghost var before := grid.View();
      ghost var target := Shift(before, time);
      var it := new DotGridIterator(grid);
      while it.HasNext()
        invariant Valid() && it.grid == grid && it.counter <= NumberOfDots
        invariant |grid.View()| == NumberOfDots
        invariant forall j :: 0 <= j < NumberOfDots ==>
          grid.View()[j] == if j < it.counter then target[j] else before[j]
        decreases NumberOfDots - it.counter
      {
        var k := it.counter;
        var next := it.Next();
        ShiftDot(next.value, k, time);
      }
    }

    /** One iteration of the onResume loop. */
    method ShiftDot(dot: Dot, k: int, time: int)
      requires Valid() && 0 <= k < NumberOfDots && dot == grid.Cells[k]
      modifies dot`stateStartTime
      ensures Valid() && grid.View() == old(grid.View())[k := Shift(old(grid.View()), time)[k]]
    {
      ghost var before := grid.View();
      if dot.IsVisible() {
        dot.IncreaseStateStartTime(time);
      }
      assert grid.View() == before[k := Shift(before, time)[k]];
    }

    /** onSurfaceChange (setSurfaceSize in the older engine): new measurements and dot centres. */
    method OnSurfaceChange(width: int, height: int)
      requires Valid()
      modifies this, grid.Board
      ensures Valid() && Model() == Resize(old(Model()), width, height)
    {
      ghost var target := Resize(Model(), width, height);
      Measure(width, height);
      CentreDots(region);
      ModelIs(target);
    }

    /** The measurements of onSurfaceChange: the smaller side, the region, the radius, the line limit. */
    method Measure(width: int, height: int)
      modifies this`width, this`height, this`length, this`region, this`radius, this`maxLine
      ensures this.width == width && this.height == height
      ensures length == (if height < width then height else width) as real
      ensures region == length / GridLength as real
      ensures radius == region * 2.0 / 3.0 / 2.0 && maxLine == 1.5 * region
    {
      this.height := height;
      this.width := width;
      length := (if height < width then height else width) as real;
      region := length / GridLength as real;
      radius := region * 2.0 / 3.0 / 2.0;
      maxLine := 1.5 * region;
    }

    /** Centring by each dot's own row and column is centring by its row-major index. */
    /** The loop of onSurfaceChange: each dot centred in its square of side `region`. */
    method CentreDots(region: real)
      requires Valid()
      modifies grid.Board
      ensures Valid() && grid.View() == CentreAll(old(grid.View()), region)
    {
      ghost var before := grid.View();
      ghost var target := CentreAll(before, region);
      var it := new DotGridIterator(grid);
      while it.HasNext()
        invariant Valid() && it.grid == grid && it.counter <= NumberOfDots
        invariant |grid.View()| == NumberOfDots
        invariant forall j :: 0 <= j < NumberOfDots ==>
          grid.View()[j] == if j < it.counter then target[j] else before[j]
        decreases NumberOfDots - it.counter
      {
        var k := it.counter;
        var next := it.Next();
        CentreDot(next.value, k, region);
      }
    }

    /** One iteration of the onSurfaceChange loop: the centre of the dot's square. */
    method CentreDot(dot: Dot, k: int, region: real)
      requires Valid() && 0 <= k < NumberOfDots && dot == grid.Cells[k]
      modifies dot`centerX, dot`centerY
      ensures Valid()
      ensures grid.View() == old(grid.View())[k := Centred(old(grid.View())[k], Row(k), Col(k), region)]
    {
      ghost var before := grid.View();
      Position(k);
      dot.SetCenterX(Offset(dot.row, region));
      dot.SetCenterY(Offset(dot.col, region));
      assert grid.View() == before[k := Centred(before[k], Row(k), Col(k), region)];
    }
 
    // ------------------------------------------------------------ the update pass

    /** updateState: one frame of timed transitions over the board, in row-major order. */
    method UpdateState(now: int, draws: seq<real>)
      requires Valid() && |draws| == NumberOfDots && Draws(draws)
      modifies this`missed, this`run, this`gameOver, grid.Board
      ensures Valid() && Model() == Tick(variant, old(Model()), now, draws)
    {
      ghost var before := Model();
      var it := new DotGridIterator(grid);
      while it.HasNext()
        invariant Valid() && it.grid == grid && it.counter <= NumberOfDots
        invariant Model() == TickUpTo(variant, before, now, draws, it.counter)
        decreases NumberOfDots - it.counter
      {
        ghost var p := Model();
        var k := it.counter;
        UpdateNext(it, now, draws[k]);
        assert TickUpTo(variant, before, now, draws, k + 1) == TickAt(variant, p, now, draws[k], k);
      }
    }

    /** The head of the updateState loop: take the iterator's next dot and update it. */
    method UpdateNext(it: DotGridIterator, now: int, draw: real)
      requires Valid() && it.grid == grid && it.counter < NumberOfDots && 0.0 <= draw < 1.0
      modifies it`counter, this`missed, this`run, this`gameOver, grid.Board
      ensures Valid() && it.counter == old(it.counter) + 1
      ensures Model() == TickAt(variant, old(Model()), now, draw, old(it.counter))
    {
      ghost var p := Model();
      var k := it.counter;
      var next := it.Next();
      assert Model() == p;
      UpdateDot(next.value, k, now, draw);
    }

    /** One iteration of the updateState loop: the dot at row-major position `k` takes its timed step. */
    method UpdateDot(dot: Dot, k: int, now: int, draw: real)
      requires Valid() && 0 <= k < NumberOfDots && dot == grid.Cells[k] && 0.0 <= draw < 1.0
      modifies this`missed, this`run, this`gameOver, dot`state, dot`stateStartTime
      ensures Valid() && Model() == TickAt(variant, old(Model()), now, draw, k)
    {
      ghost var g0 := Model();
      var stateDuration := dot.StateDuration(now);
      match dot.state
      case Selected =>
      case Visible =>
        if stateDuration > DurationVisible {
          ChangeState(dot, Disappearing, now);
          MissOne();
        }
      case Disappearing =>
        if stateDuration > DurationAnimation {
          ChangeState(dot, Invisible, now);
        }
      case Invisible =>
        if stateDuration > DurationHidden {
          if Pick(draw, SpawnRange) == 1 {
            ChangeState(dot, Appearing, now);
          }
        }
      case Appearing =>
        if stateDuration > DurationAnimation {
          ChangeState(dot, Visible, now);
        }
    }

    /** The tail of the visible case of updateState: count the miss, stop at the fifteenth. */
    method MissOne()
      requires Valid()
      modifies this`missed, this`run, this`gameOver
      ensures Valid() && Model() == Miss(variant, old(Model()))
    {
      UpdateMissedByOne();
      if missed >= DotsToMiss {
        Stop();
      }
    }

    /** The game-over branch: the run ends, and the current engine records game over. */
    method Stop()
      requires Valid()
      modifies this`run, this`gameOver
      ensures Valid()
      ensures Model() == old(Model()).(run := false, gameOver := old(gameOver) || variant == Current)
    {
      if variant == Current {
        run, gameOver := false, true;
      } else {
        run := false;
      }
    }

    /** setState on one dot of the board: only that dot's view changes. */
    method ChangeState(dot: Dot, s: DotState, now: int)
      requires Valid() && dot in grid.Board
      modifies dot`state, dot`stateStartTime
      ensures Valid()
      ensures var g := old(Model());
        Model() == g.(dots := g.dots[Index(dot) := WithState(g.dots[Index(dot)], s, now)])
    {
      ghost var before := Model();
      OnBoard(dot);
      dot.SetState(s, now);
      assert grid.View() == before.dots[Index(dot) := WithState(before.dots[Index(dot)], s, now)];
    }

    /** updateMissedByOne (the missed-count display is not modelled). */
    method UpdateMissedByOne()
      requires Valid()
      modifies this`missed
      ensures Valid() && Model() == old(Model()).(missed := old(missed) + 1)
    {
      missed := missed + 1;
    }

    // ------------------------------------------------------------ touches

    /** onTouch: the current engine ignores touches while paused; every touch counts as handled. */
    method OnTouch(action: Action, x: real, y: real, now: int) returns (handled: bool)
      requires Valid()
      modifies this`chain, this`interacting, this`lineX, this`lineY, this`score, grid.Board
      ensures handled
      ensures Valid() && Model() == Rules.OnTouch(variant, old(Model()), action, x, y, now)
    {
      if variant == Legacy || !block {
        match action
        case Down => OnTouchDown(x, y, now);
        case Up => OnTouchUp(now);
        case Move => OnTouchMove(x, y, now);
        case Outside => OnTouchOutside();
        case Other(_) =>
      }
      handled := true;
    }

    /** onTouchDown: the line starts at the touch, the first visible dot in reach is chained. */
    method OnTouchDown(x: real, y: real, now: int)
      requires Valid()
      modifies this`chain, this`interacting, this`lineX, this`lineY, grid.Board
      ensures Valid() && Model() == TouchDown(variant, old(Model()), x, y, now)
    {
      ghost var g0 := Model();
      SetLine(x, y);
      var reach := radius * DownReach;
      var hit := FindHit(x, y, reach);
      ghost var h := if hit.Some? then Some(Index(hit.value)) else None;
      assert h == FirstHit(g0.dots, x, y, g0.radius * DownReach);
      if hit.Some? {
        AddDotToChain(hit.value, now);
      }
      ghost var g2 := Model();
      SetInteracting(true);
      TouchDownSteps(variant, g0, x, y, now, h, g2);
    }

    /** mInteracting: whether a touch is in progress. */
    method SetInteracting(b: bool)
      requires Valid()
      modifies this`interacting
      ensures Valid() && Model() == old(Model()).(interacting := b)
    {
      interacting := b;
    }

    /** onTouchUp: score the chain, start its dots disappearing, and empty it. */
    method OnTouchUp(now: int)
      requires Valid()
      modifies this`chain, this`interacting, this`score, grid.Board
      ensures Valid() && Model() == TouchUp(old(Model()), now)
    {
      ghost var g0 := Model();
      UpdateScore();
      ghost var g1 := Model();
      HideChain(now);
      ghost var g2 := Model();
      ClearChain();
      assert Model() == TouchUp(g0, now);
    }

    /** onTouchMove: move the trailing line, then chain the touched dot if it is new and next to the top. */
    method OnTouchMove(x: real, y: real, now: int)
      requires Valid()
      modifies this`chain, this`lineX, this`lineY, grid.Board
      ensures Valid() && Model() == TouchMove(variant, old(Model()), x, y, now)
    {
      SetInteractingCoordinates(x, y);
      if chain != [] {
        ReachFor(x, y, now);
      }
    }

    /** The search loop of onTouchMove: the first dot hit joins the chain if it may follow the top. */
    method ReachFor(x: real, y: real, now: int)
      requires Valid() && chain != []
      modifies this`chain, grid.Board
      ensures Valid()
      ensures var g := old(Model());
        var h := FirstHit(g.dots, x, y, g.radius * MoveReach);
        Model() == if h.Some? && h.value !in g.chain && Adjacent(h.value, Last(g.chain)) then Push(variant, g, h.value, now) else g
    {
      var reach := radius * MoveReach;
      var hit := FindHit(x, y, reach);
      if hit.Some? {
        ExtendChain(hit.value, now);
      }
    }

    /** The body of the search loop of onTouchMove once a dot is hit: chain it if it may follow the top. */
    method ExtendChain(dot: Dot, now: int)
      requires Valid() && dot in grid.Board && chain != []
      modifies this`chain, dot
      ensures Valid()
      ensures var g := old(Model());
        Model() == if Index(dot) !in g.chain && Adjacent(Index(dot), Last(g.chain)) then Push(variant, g, Index(dot), now) else g
    {
      InChain(dot);
      AdjacentByPosition(dot);
      if dot !in chain && IsDotAdjacent(dot) {
        AddDotToChain(dot, now);
      }
    }

    /** onTouchOutside: drop the chain without scoring; its dots keep their state. */
    method OnTouchOutside()
      requires Valid()
      modifies this`chain, this`interacting
      ensures Valid() && Model() == TouchOutside(old(Model()))
    {
      ClearChain();
    }

    /** Empty the chain and end the interaction (the tail of onTouchUp, all of onTouchOutside). */
    method ClearChain()
      requires Valid()
      modifies this`chain, this`interacting
      ensures Valid() && Model() == old(Model()).(chain := [], interacting := false)
    {
      chain, interacting := [], false;
    }

    /** The loop of onTouchUp over the chain, bottom to top. */
    method HideChain(now: int)
      requires Valid()
      modifies grid.Board
      ensures Valid() && Model() == old(Model()).(dots := Hide(old(Model()).dots, Indices(chain), now))
    {
      ghost var before := grid.View();
      ghost var ids := Indices(chain);
      ChainOnBoard();
      for k := 0 to |chain|
        invariant Valid()
        invariant forall j :: 0 <= j < NumberOfDots ==>
          (grid.Cells[j].View() == if j in ids[..k] then WithState(before[j], Disappearing, now) else before[j])
      {
        var dot := chain[k];
        assert ids[..k + 1] == ids[..k] + [Index(dot)];
        WithStateIdempotent(before[Index(dot)], Disappearing, now, now);
        dot.SetState(Disappearing, now);
      }
      assert ids[..|chain|] == ids;
      assert grid.View() == Hide(before, ids, now);
    }

    /** updateScore: a non-empty chain adds its length squared (the score display is not modelled). */
    method UpdateScore()
      requires Valid()
      modifies this`score
      ensures Valid() && Model() == old(Model()).(score := ChainScore(old(score), |chain|))
    {
      if chain != [] {
        score := score + |chain| * |chain|;
      }
    }

    /** addDotToChain: push the dot; the current engine also marks it selected. */
    method AddDotToChain(dot: Dot, now: int)
      requires Valid() && dot in grid.Board
      modifies this`chain, dot
      ensures Valid() && Model() == Push(variant, old(Model()), Index(dot), now)
    {
      ghost var before := Model();
      OnBoard(dot);
      IndicesPush(chain, dot);
      chain := chain + [dot];
      if variant == Current {
        dot.SetState(Selected, now);
      }
      assert grid.View() == Push(variant, before, Index(dot), now).dots;
    }

    /**
     * The search loop of touch down and touch move: the first visible dot, in row-major order,
     * whose box of half-side `reach` (the radius times the caller's factor) holds the touch.
     */
    method FindHit(x: real, y: real, reach: real) returns (hit: Option<Dot>)
      requires Valid()
      ensures hit.None? ==> FirstHit(grid.View(), x, y, reach) == None
      ensures hit.Some? ==> hit.value in grid.Board && FirstHit(grid.View(), x, y, reach) == Some(Index(hit.value))
    {
      var it := new DotGridIterator(grid);
      hit := None;
      while it.HasNext()
        invariant Valid() && it.grid == grid && it.counter <= NumberOfDots
        invariant forall j :: 0 <= j < it.counter ==> !Hit(grid.Cells[j].View(), x, y, reach)
        decreases NumberOfDots - it.counter
      {
        ghost var k := it.counter;
        var next := it.Next();
        var dot := next.value;
        if dot.IsVisible() && IsTouchWithinDot(x, y, dot, reach) {
          hit := Some(dot);
          assert Hit(grid.View()[k], x, y, reach);
          return;
        }
      }
    }

    /** isTouchWithinDot: both offsets from the dot's centre within `reach`, the radius times a factor. */
    static predicate IsTouchWithinDot(x: real, y: real, dot: Dot, reach: real)
      reads dot
      ensures IsTouchWithinDot(x, y, dot, reach) <==> Within(dot.View(), x, y, reach)
    {
      AbsR(x - dot.centerX) <= reach && AbsR(y - dot.centerY) <= reach
    }

    /** isDotAdjacent: the chain is not empty and the dot is at most one row and one column from its top. */
    predicate IsDotAdjacent(dot: Dot)
      reads this
    {
      chain != [] && Abs(dot.row - chain[|chain| - 1].row) <= 1 && Abs(dot.col - chain[|chain| - 1].col) <= 1
    }

    /** Adjacency by the dots' own rows and columns is adjacency of their row-major indices. */
    lemma AdjacentByPosition(dot: Dot)
      requires Valid() && dot in grid.Board && chain != []
      ensures IsDotAdjacent(dot) <==> Adjacent(Index(dot), Last(Indices(chain)))
    {
      var top := chain[|chain| - 1];
      OnBoard(dot);
      OnBoard(top);
      ChainOnBoard();
      assert Last(Indices(chain)) == Index(top);
      Position(Index(dot));
      Position(Index(top));
    }

    /** The engine's row-major index of a dot is the grid's `getIndex`. */
    lemma IndexIsGetIndex(d: Dot)
      requires Valid()
      ensures Index(d) == grid.GetIndex(d)
    {
    }

    /** A dot is on the chain exactly when its index is. */
    lemma InChain(dot: Dot)
      requires Valid() && dot in grid.Board
      ensures dot in chain <==> Index(dot) in Indices(chain)
    {
      OnBoard(dot);
      ChainOnBoard();
      if Index(dot) in Indices(chain) {
        var k :| 0 <= k < |chain| && Indices(chain)[k] == Index(dot);
        assert chain[k] == dot;
      }
    }

    /** setInteractingCoordinates: the trailing line from the top of the chain, clamped per axis. */
    method SetInteractingCoordinates(endX: real, endY: real)
      requires Valid()
      modifies this`lineX, this`lineY
      ensures Valid() && Model() == Trail(old(Model()), endX, endY)
    {
      ghost var g0 := Model();
      if chain != [] {
        ChainOnBoard();
        var lastDot := chain[|chain| - 1];
        assert g0.dots[Last(g0.chain)] == lastDot.View();
        var startX, startY := lastDot.centerX, lastDot.centerY;
        var x, y := lineX, lineY;
        var diffX, diffY := AbsR(startX - endX), AbsR(startY - endY);
        if diffX > maxLine || diffY > maxLine {
          var larger := if diffX >= diffY then diffX else diffY;
          diffX, diffY := Shrink(diffX, larger, maxLine), Shrink(diffY, larger, maxLine);
          if startX - endX > 0.0 {
            x := startX - diffX;
          } else if startX - endX < 0.0 {
            x := startX + diffX;
          }
          if startY - endY > 0.0 {
            y := startY - diffY;
          } else if startY - endY < 0.0 {
            y := startY + diffY;
          }
        } else {
          x, y := endX, endY;
        }
        assert (x, y) == Clamp(startX, startY, endX, endY, maxLine, g0.lineX, g0.lineY);
        SetLine(x, y);
      }
    }

    method SetLine(x: real, y: real)
      requires Valid()
      modifies this`lineX, this`lineY
      ensures Valid() && Model() == old(Model()).(lineX := x, lineY := y)
    {
      lineX, lineY := x, y;
    }
  }
}
