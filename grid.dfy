/**
 * The game board (gameboard/DotGrid.java): an n-by-n array of dots with index
 * arithmetic, bounds-checked neighbour lookup, a flood fill measuring a cluster,
 * and a row-major iterator.
 */
module Grid {
  import opened Dots
  import opened Wrappers

  /** Row and column offsets of the eight neighbours in the order the source visits them:
      north, north-east, east, south-east, south, south-west, west, north-west. */
  const Directions: seq<(int, int)> := [(-1, 0), (-1, 1), (0, 1), (1, 1), (1, 0), (1, -1), (0, -1), (-1, -1)]

  /** No element occurs twice. */
  ghost predicate Distinct<T>(s: seq<T>)
  {
    forall i, j :: 0 <= i < j < |s| ==> s[i] != s[j]
  }

  /** The random pick `(int) (Math.random() * size)`: for a draw in [0, 1) an index in [0, size). */
  function Pick(draw: real, size: nat): (k: nat)
    requires 0.0 <= draw < 1.0 && size > 0
    ensures k < size
  {
    assert draw * (size as real) < size as real;
    (draw * (size as real)).Floor
  }

  /** A sequence has at least as many positions as it has distinct elements. */
  lemma {:induction false} CardOfElements<T>(s: seq<T>)
    ensures |set x | x in s| <= |s|
  {
    if s != [] {
      var last := s[|s| - 1];
      var front := s[..|s| - 1];
      CardOfElements(front);
      assert (set x | x in s) == (set x | x in front) + {last};
    }
  }

  lemma SubsetCard<T>(a: set<T>, b: set<T>)
    requires a <= b
    ensures |a| <= |b|
  {
    assert b == a + (b - a);
  }

  function Abs(x: int): nat { if x < 0 then -x else x }

  /** Chebyshev (king-move) distance between two grid positions. */
  function Chebyshev(r1: int, c1: int, r2: int, c2: int): nat
  {
    if Abs(r1 - r2) >= Abs(c1 - c2) then Abs(r1 - r2) else Abs(c1 - c2)
  }

  /** Row-major position arithmetic: `r * n + c` with `c < n` determines `r` and `c`. */
  lemma {:induction false} DivModOfPosition(n: nat, r: int, c: int)
    requires 0 < n && 0 <= r && 0 <= c < n
    ensures (r * n + c) / n == r && (r * n + c) % n == c
  {
    var i := r * n + c;
    var q, m := i / n, i % n;
    assert i == q * n + m && 0 <= m < n;
    assert (r - q) * n == m - c;
    if r - q >= 1 {
    } else if r - q <= -1 {
    }
  }

  lemma {:induction false} PositionBound(n: nat, r: int, c: int)
    requires 0 <= r < n && 0 <= c < n
    ensures 0 <= r * n + c < n * n
  {
    assert r * n <= (n - 1) * n;
  }

  lemma {:induction false} IndexBound(n: nat, i: int)
    requires 0 <= i < n * n
    ensures 0 < n && 0 <= i / n < n && 0 <= i % n < n
  {
    var q := i / n;
    assert i == q * n + i % n;
  }

  class DotGrid {
    const n: nat
    const cells: array2<Dot?>
    /** The dots in row-major order: the order of `dotAt` and of the iterator. */
    ghost const Cells: seq<Dot>
    /** The same dots as a set: the footprint of everything that looks at dot states. */
    ghost const Board: set<Dot>

    /** The row-major order: the dot at index `i` sits at row `i / n`, column `i % n`. */
    ghost predicate Shape() {
      |Cells| == n * n &&
      (forall e :: e in Board ==> e in Cells) &&
      forall i :: 0 <= i < |Cells| ==>
        Cells[i] in Board &&
        0 <= Cells[i].row < n && 0 <= Cells[i].col < n &&
        Cells[i].row * n + Cells[i].col == i
    }

    ghost predicate Valid()
      reads cells
    {
      Shape() && cells.Length0 == n && cells.Length1 == n &&
      forall i :: 0 <= i < |Cells| ==> cells[Cells[i].row, Cells[i].col] == Cells[i]
    }

    /** The dots of the board that are not invisible: the ones clusters are made of. */
    ghost function Present(): (present: set<Dot>)
      requires Valid()
      reads cells, Board
      ensures present <= Board && forall e :: e in Board ==> (e in present <==> e.state != Invisible)
    {
      set e | e in Board && e.state != Invisible
    }

    /** Everything the dots of the board currently show, in row-major order. */
    ghost function View(): (v: seq<DotView>)
      requires Valid()
      reads cells, Board
      ensures |v| == |Cells| && forall i :: 0 <= i < |Cells| ==> v[i] == Cells[i].View()
    {
      seq(|Cells|, i reads Board requires 0 <= i < |Cells| && Cells[i] in Board => Cells[i].View())
    }

    /** Builds the board: dot ids run 1..n*n, assigned column by column (initializeGrid). */
    constructor (gridLength: nat, now: int)
      ensures Valid() && n == gridLength
      ensures forall i :: 0 <= i < |Cells| ==> Cells[i].id == Cells[i].col * n + Cells[i].row + 1
      ensures forall i :: 0 <= i < |Cells| ==> Cells[i].View() == DotView(Invisible, now, 0.0, 0.0)
    {
      var a := Populate(gridLength, now);
      ghost var cs := Flatten(a, gridLength, now);
      n := gridLength;
      cells := a;
      Cells := cs;
      Board := set e | e in cs;
    }

    /** A freshly created dot for position (`r`, `c`) of a board of side `len`. */
    static ghost predicate Built(d: Dot?, r: int, c: int, len: nat, now: int)
      reads d
    {
      d != null && d.row == r && d.col == c && d.id == c * len + r + 1 &&
      d.View() == DotView(Invisible, now, 0.0, 0.0)
    }

    /** The nested loops of initializeGrid: columns outside, rows inside, ids counting up. */
    static method Populate(len: nat, now: int) returns (a: array2<Dot?>)
      ensures fresh(a) && a.Length0 == len && a.Length1 == len
      ensures forall r, c :: 0 <= r < len && 0 <= c < len ==> Built(a[r, c], r, c, len, now)
    {
      a := new Dot?[len, len];
      var id := 1;
      for c := 0 to len
        invariant id == c * len + 1
        invariant forall r', c' :: 0 <= r' < len && 0 <= c' < c ==> Built(a[r', c'], r', c', len, now)
      {
        for r := 0 to len
          invariant id == c * len + r + 1
          invariant forall r', c' :: 0 <= r' < len && 0 <= c' < c ==> Built(a[r', c'], r', c', len, now)
          invariant forall r' :: 0 <= r' < r ==> Built(a[r', c], r', c, len, now)
        {
          a[r, c] := new Dot(id, r, c, now);
          id := id + 1;
        }
      }
    }

    /** The row-major list of the dots of a filled board. */
    static ghost method Flatten(a: array2<Dot?>, len: nat, now: int) returns (cs: seq<Dot>)
      requires a.Length0 == len && a.Length1 == len
      requires forall r, c :: 0 <= r < len && 0 <= c < len ==> Built(a[r, c], r, c, len, now)
      ensures |cs| == len * len
      ensures forall i :: 0 <= i < |cs| ==>
        0 <= cs[i].row < len && 0 <= cs[i].col < len && cs[i].row * len + cs[i].col == i &&
        a[cs[i].row, cs[i].col] == cs[i] && Built(cs[i], cs[i].row, cs[i].col, len, now)
    {
      cs := [];
      for i := 0 to len * len
        invariant |cs| == i
        invariant forall j :: 0 <= j < i ==>
          0 <= cs[j].row < len && 0 <= cs[j].col < len && cs[j].row * len + cs[j].col == j &&
          a[cs[j].row, cs[j].col] == cs[j] && Built(cs[j], cs[j].row, cs[j].col, len, now)
      {
        IndexBound(len, i);
        var d := a[i / len, i % len];
        assert Built(d, i / len, i % len, len, now);
        assert i == (i / len) * len + i % len;
        cs := cs + [d];
      }
    }

    /** The dot at `cells[r, c]` is the one at row-major index `r * n + c`. */
    lemma CellAt(r: int, c: int)
      requires Valid() && 0 <= r < n && 0 <= c < n
      ensures 0 <= r * n + c < |Cells| && cells[r, c] == Cells[r * n + c]
      ensures cells[r, c].row == r && cells[r, c].col == c
    {
      ShapeAt(r, c);
    }

    /** Position (`r`, `c`) is index `r * n + c`, and the dot there knows it. */
    lemma ShapeAt(r: int, c: int)
      requires Shape() && 0 <= r < n && 0 <= c < n
      ensures 0 <= r * n + c < |Cells| && Cells[r * n + c].row == r && Cells[r * n + c].col == c
    {
      PositionBound(n, r, c);
      var d := Cells[r * n + c];
      DivModOfPosition(n, r, c);
      DivModOfPosition(n, d.row, d.col);
    }

    /** The dot at row `r`, column `c`, through the row-major order. */
    ghost function At(r: int, c: int): (d: Dot)
      requires Shape() && 0 <= r < n && 0 <= c < n
      ensures d in Cells && d.row == r && d.col == c
    {
      ShapeAt(r, c);
      Cells[r * n + c]
    }

    lemma OnShape(d: Dot)
      requires Shape() && d in Cells
      ensures 0 <= d.row < n && 0 <= d.col < n
      ensures 0 <= d.row * n + d.col < |Cells| && Cells[d.row * n + d.col] == d
    {
      var i :| 0 <= i < |Cells| && Cells[i] == d;
    }

    /** The position of the dot at index `i` is the quotient and remainder of `i` by `n`. */
    lemma PositionOf(i: int)
      requires Valid() && 0 <= i < |Cells|
      ensures Cells[i].row == i / n && Cells[i].col == i % n
    {
      DivModOfPosition(n, Cells[i].row, Cells[i].col);
    }

    /** Distinct indices hold distinct dots. */
    lemma CellsDistinct(i: int, j: int)
      requires Valid() && 0 <= i < |Cells| && 0 <= j < |Cells| && i != j
      ensures Cells[i] != Cells[j]
    {
    }

    /** `dotAt(index)`: the dot in row `index / n`, column `index % n`. */
    function DotAt(index: int): (d: Dot)
      requires Valid() && 0 <= index < n * n
      reads cells
      ensures d == Cells[index] && d.row == index / n && d.col == index % n
    {
      PositionOf(index);
      cells[index / n, index % n]
    }

    /** `getIndex(dot)`: the row-major index `n * row + col`; it inverts `DotAt` on the board's dots. */
    function GetIndex(d: Dot): (i: int)
      requires Valid()
      reads cells
      ensures d in Cells ==> 0 <= i < |Cells| && Cells[i] == d && DotAt(i) == d
    {
      n * d.row + d.col
    }

    /** The neighbour at offset (`dr`, `dc`), or none when that position is off the board. */
    function Neighbour(d: Dot, dr: int, dc: int): (r: Option<Dot>)
      requires Valid() && 0 <= d.row < n && 0 <= d.col < n
      reads cells
      ensures r.None? <==> !(0 <= d.row + dr <= n - 1 && 0 <= d.col + dc <= n - 1)
      ensures r.Some? ==> r.value in Cells && r.value.row == d.row + dr && r.value.col == d.col + dc
    {
      if 0 <= d.row + dr <= n - 1 && 0 <= d.col + dc <= n - 1 then
        CellAt(d.row + dr, d.col + dc);
        Some(cells[d.row + dr, d.col + dc])
      else
        None
    }

    /** A dot of the board knows its own place in the array and in the row-major order. */
    lemma OnBoard(d: Dot)
      requires Valid() && d in Cells
      ensures 0 <= d.row < n && 0 <= d.col < n
      ensures 0 <= d.row * n + d.col < |Cells| && Cells[d.row * n + d.col] == d && cells[d.row, d.col] == d
    {
      var i :| 0 <= i < |Cells| && Cells[i] == d;
    }

    /**
     * The neighbours of `d` at the offsets `dirs` that are on the board and not invisible
     * in the snapshot `present`, in the order of `dirs`.
     */
    ghost function NeighboursAmong(present: set<Dot>, d: Dot, dirs: seq<(int, int)>): (r: seq<Dot>)
      requires Shape() && d in Cells
      ensures |r| <= |dirs|
      decreases |dirs|
    {
      if dirs == [] then []
      else
        var rest := NeighboursAmong(present, d, dirs[..|dirs| - 1]);
        var row, col := d.row + dirs[|dirs| - 1].0, d.col + dirs[|dirs| - 1].1;
        if 0 <= row <= n - 1 && 0 <= col <= n - 1 then
          var e := At(row, col);
          if e in present then rest + [e] else rest
        else
          rest
    }

    /** The cluster-forming neighbours of `d`: every in-bounds neighbour that is not invisible. */
    ghost function VisibleNeighbours(d: Dot): seq<Dot>
      requires Valid() && d in Cells
      reads cells, Board
    {
      NeighboursAmong(Present(), d, Directions)
    }

    /** getAdjacentVisibleDots: the eight direction lookups, keeping the hits that are not invisible. */
    method GetAdjacentVisibleDots(d: Dot) returns (adj: seq<Dot>)
      requires Valid() && d in Cells
      ensures adj == VisibleNeighbours(d)
    {
      OnBoard(d);
      ghost var present := Present();
      adj := [];
      for k := 0 to |Directions|
        invariant forall e :: e in Board ==> (e in present <==> e.state != Invisible)
        invariant adj == NeighboursAmong(present, d, Directions[..k])
      {
        var off := Directions[k];
        var nb := Neighbour(d, off.0, off.1);
        ScanStep(present, d, Directions, k);
        if nb.Some? && nb.value.state != Invisible {
          adj := adj + [nb.value];
        }
      }
      assert Directions[..|Directions|] == Directions;
      PresentIs(present);
    }

    /** One step of the scan in getAdjacentVisibleDots, read through the array. */
    lemma ScanStep(present: set<Dot>, d: Dot, dirs: seq<(int, int)>, k: nat)
      requires Valid() && d in Cells && k < |dirs|
      requires forall e :: e in Board ==> (e in present <==> e.state != Invisible)
      ensures 0 <= d.row < n && 0 <= d.col < n
      ensures var nb := Neighbour(d, dirs[k].0, dirs[k].1);
        NeighboursAmong(present, d, dirs[..k + 1]) ==
          if nb.Some? && nb.value.state != Invisible
          then NeighboursAmong(present, d, dirs[..k]) + [nb.value]
          else NeighboursAmong(present, d, dirs[..k])
    {
      OnBoard(d);
      NeighboursStep(present, d, dirs, k);
      var nb := Neighbour(d, dirs[k].0, dirs[k].1);
      if nb.Some? {
        CellAt(d.row + dirs[k].0, d.col + dirs[k].1);
        assert nb.value == At(d.row + dirs[k].0, d.col + dirs[k].1);
      }
    }

    /** A set of board dots that holds exactly the non-invisible ones is `Present()`. */
    lemma PresentIs(present: set<Dot>)
      requires Valid() && present <= Board
      requires forall e :: e in Board ==> (e in present <==> e.state != Invisible)
      ensures Present() == present
    {
    }

    /** One more offset adds the dot there, if it is on the board and present. */
    lemma NeighboursStep(present: set<Dot>, d: Dot, dirs: seq<(int, int)>, k: nat)
      requires Shape() && d in Cells && k < |dirs|
      ensures var row, col := d.row + dirs[k].0, d.col + dirs[k].1;
        NeighboursAmong(present, d, dirs[..k + 1]) ==
          if 0 <= row < n && 0 <= col < n && At(row, col) in present
          then NeighboursAmong(present, d, dirs[..k]) + [At(row, col)]
          else NeighboursAmong(present, d, dirs[..k])
    {
      assert dirs[..k + 1][..k] == dirs[..k];
    }

    /** What `NeighboursAmong` returns are board dots that are not invisible, each at one of the offsets. */
    lemma {:induction false} NeighboursAmongSound(present: set<Dot>, d: Dot, dirs: seq<(int, int)>, e: Dot)
      requires Shape() && d in Cells && e in NeighboursAmong(present, d, dirs)
      ensures e in Cells && e in present && (e.row - d.row, e.col - d.col) in dirs
      decreases |dirs|
    {
      var rest := NeighboursAmong(present, d, dirs[..|dirs| - 1]);
      if e in rest {
        NeighboursAmongSound(present, d, dirs[..|dirs| - 1], e);
      } else {
        ShapeAt(d.row + dirs[|dirs| - 1].0, d.col + dirs[|dirs| - 1].1);
      }
    }

    /** Every non-invisible board dot at one of the offsets is returned. */
    lemma {:induction false} NeighboursAmongComplete(present: set<Dot>, d: Dot, dirs: seq<(int, int)>, e: Dot)
      requires Shape() && d in Cells && e in Cells && e in present
      requires (e.row - d.row, e.col - d.col) in dirs
      ensures e in NeighboursAmong(present, d, dirs)
      decreases |dirs|
    {
      OnShape(e);
      if dirs[|dirs| - 1] != (e.row - d.row, e.col - d.col) {
        assert (e.row - d.row, e.col - d.col) in dirs[..|dirs| - 1];
        NeighboursAmongComplete(present, d, dirs[..|dirs| - 1], e);
      }
    }

    /** Offsets listed once give dots listed once. */
    lemma {:induction false} NeighboursAmongDistinct(present: set<Dot>, d: Dot, dirs: seq<(int, int)>)
      requires Shape() && d in Cells
      requires Distinct(dirs)
      ensures Distinct(NeighboursAmong(present, d, dirs))
      decreases |dirs|
    {
      if dirs != [] {
        var prefix := dirs[..|dirs| - 1];
        NeighboursAmongDistinct(present, d, prefix);
        var rest := NeighboursAmong(present, d, prefix);
        var r := NeighboursAmong(present, d, dirs);
        if r != rest {
          var e := r[|r| - 1];
          assert r == rest + [e];
          if e in rest {
            NeighboursAmongSound(present, d, prefix, e);
            assert false;
          }
          forall i, j | 0 <= i < j < |r| ensures r[i] != r[j] {
            if j < |rest| {
              assert r[i] == rest[i] && r[j] == rest[j];
            } else {
              assert r[i] in rest;
            }
          }
        }
      }
    }

    /**
     * getAdjacentVisibleDots returns exactly the board dots at Chebyshev distance 1 from `d`
     * that are not invisible: never `d` itself, each at most once, at most eight of them.
     */
    lemma VisibleNeighboursExactly(d: Dot, e: Dot)
      requires Valid() && d in Cells
      ensures e in VisibleNeighbours(d) <==>
        e in Cells && e.state != Invisible && Chebyshev(d.row, d.col, e.row, e.col) == 1
      ensures |VisibleNeighbours(d)| <= 8 && d !in VisibleNeighbours(d) && Distinct(VisibleNeighbours(d))
    {
      var present := Present();
      NeighboursAmongDistinct(present, d, Directions);
      if e in VisibleNeighbours(d) {
        NeighboursAmongSound(present, d, Directions, e);
        OnShape(e);
      }
      if e in Cells && e.state != Invisible && Chebyshev(d.row, d.col, e.row, e.col) == 1 {
        assert (e.row - d.row, e.col - d.col) in Directions;
        OnShape(e);
        NeighboursAmongComplete(present, d, Directions, e);
      }
      if d in VisibleNeighbours(d) {
        NeighboursAmongSound(present, d, Directions, d);
      }
    }

    /**
     * A walk through the board in the snapshot `present`, as positions into Cells: each step goes
     * to a non-invisible neighbour of the dot before it.
     */
    ghost predicate IsWalk(present: set<Dot>, p: seq<int>)
      requires Shape()
    {
      |p| >= 1 && (forall i :: 0 <= i < |p| ==> 0 <= p[i] < |Cells|) &&
      forall i :: 0 <= i < |p| - 1 ==> Cells[p[i + 1]] in NeighboursAmong(present, Cells[p[i]], Directions)
    }

    ghost predicate Reachable(present: set<Dot>, seed: Dot, e: Dot)
      requires Shape()
    {
      exists p :: IsWalk(present, p) && Cells[p[0]] == seed && Cells[p[|p| - 1]] == e
    }

    /** The 8-connected cluster of non-invisible dots that `seed` belongs to (with `seed` itself). */
    ghost function Component(present: set<Dot>, seed: Dot): set<Dot>
      requires Shape()
    {
      set e | e in Cells && Reachable(present, seed, e)
    }

    lemma ReachableStep(present: set<Dot>, seed: Dot, e: Dot, f: Dot)
      requires Shape() && e in Cells && Reachable(present, seed, e)
      requires f in NeighboursAmong(present, e, Directions)
      ensures Reachable(present, seed, f)
    {
      var p :| IsWalk(present, p) && Cells[p[0]] == seed && Cells[p[|p| - 1]] == e;
      NeighboursAmongSound(present, e, Directions, f);
      var j :| 0 <= j < |Cells| && Cells[j] == f;
      var q := p + [j];
      assert IsWalk(present, q) && Cells[q[0]] == seed && Cells[q[|q| - 1]] == f;
    }

    /** A set holding the start of a walk and closed under the walk's steps holds the whole walk. */
    lemma {:induction false} WalkStaysInside(present: set<Dot>, p: seq<int>, s: set<Dot>, k: nat)
      requires Shape() && IsWalk(present, p) && Cells[p[0]] in s && k < |p|
      requires forall e, f :: e in s && e in Cells && f in NeighboursAmong(present, e, Directions) ==> f in s
      ensures Cells[p[k]] in s
    {
      if k > 0 {
        WalkStaysInside(present, p, s, k - 1);
      }
    }

    /**
     * What the flood fill keeps true: every dot seen is reachable from the seed, and every
     * neighbour of a counted dot is counted or still waiting on the stack.
     */
    ghost predicate FillInv(present: set<Dot>, seed: Dot, stack: seq<Dot>, considered: set<Dot>)
      requires Shape()
    {
      (forall e :: e in considered ==> e in Cells && Reachable(present, seed, e)) &&
      (forall e :: e in stack ==> e in Cells && Reachable(present, seed, e)) &&
      forall e, f :: e in considered && f in NeighboursAmong(present, e, Directions) ==>
        f in considered || f in stack
    }

    lemma FillStart(present: set<Dot>, seed: Dot)
      requires Shape() && seed in Cells
      ensures FillInv(present, seed, [seed], {})
    {
      var j :| 0 <= j < |Cells| && Cells[j] == seed;
      assert IsWalk(present, [j]);
    }

    /** Popping a dot that was counted already. */
    lemma FillSkip(present: set<Dot>, seed: Dot, prev: seq<Dot>, considered: set<Dot>)
      requires Shape() && FillInv(present, seed, prev, considered)
      requires prev != [] && prev[|prev| - 1] in considered
      requires seed in considered || seed in prev
      ensures FillInv(present, seed, prev[..|prev| - 1], considered)
      ensures seed in considered || seed in prev[..|prev| - 1]
    {
      var stack, current := prev[..|prev| - 1], prev[|prev| - 1];
      assert prev == stack + [current];
      forall e, f | e in considered && f in NeighboursAmong(present, e, Directions)
        ensures f in considered || f in stack
      {
        assert f in considered || f in stack + [current];
      }
    }

    /** Popping a new dot: it is counted and its neighbours are pushed. */
    lemma FillVisit(present: set<Dot>, seed: Dot, prev: seq<Dot>, considered: set<Dot>, board: set<Dot>)
      requires Shape() && FillInv(present, seed, prev, considered) && prev != []
      requires prev[|prev| - 1] !in considered && board == (set e | e in Cells) && considered <= board
      requires seed in considered || seed in prev
      ensures var current := prev[|prev| - 1];
        var stack := prev[..|prev| - 1] + NeighboursAmong(present, current, Directions);
        FillInv(present, seed, stack, considered + {current}) &&
        considered + {current} <= board &&
        |board - (considered + {current})| < |board - considered| &&
        |considered + {current}| == |considered| + 1 &&
        (seed in considered + {current} || seed in stack)
    {
      var stack, current := prev[..|prev| - 1], prev[|prev| - 1];
      var adjacent := NeighboursAmong(present, current, Directions);
      assert board - (considered + {current}) < board - considered;
      assert prev == stack + [current];
      assert current in stack + [current];
      forall f | f in adjacent
        ensures f in Cells && Reachable(present, seed, f)
      {
        NeighboursAmongSound(present, current, Directions, f);
        ReachableStep(present, seed, current, f);
      }
      forall e, f | e in considered + {current} && f in NeighboursAmong(present, e, Directions)
        ensures f in considered + {current} || f in stack + adjacent
      {
        if e != current {
          assert f in considered || f in stack + [current];
        }
      }
    }

    lemma ComponentBound(present: set<Dot>, seed: Dot)
      requires Shape()
      ensures |Component(present, seed)| <= n * n
    {
      CardOfElements(Cells);
      assert Component(present, seed) <= set e | e in Cells;
      SubsetCard(Component(present, seed), set e | e in Cells);
    }

    /** When the stack is empty, what was counted is the whole cluster of the seed. */
    lemma FillDone(present: set<Dot>, seed: Dot, considered: set<Dot>)
      requires Shape() && FillInv(present, seed, [], considered) && seed in considered
      ensures considered == Component(present, seed)
    {
      forall e | e in Component(present, seed)
        ensures e in considered
      {
        var p :| IsWalk(present, p) && Cells[p[0]] == seed && Cells[p[|p| - 1]] == e;
        WalkStaysInside(present, p, considered, |p| - 1);
      }
    }

    /**
     * clusterSizeFor: the size of the cluster next to `d`. With no non-invisible neighbour it is 0;
     * otherwise one neighbour is picked with the random `draw` and the flood fill counts the dots
     * of its cluster.
     */
    method ClusterSizeFor(d: Dot, draw: real) returns (count: nat)
      requires Valid() && d in Cells && 0.0 <= draw < 1.0
      ensures VisibleNeighbours(d) == [] <==> count == 0
      ensures VisibleNeighbours(d) != [] ==>
        count == |Component(Present(), VisibleNeighbours(d)[Pick(draw, |VisibleNeighbours(d)|)])|
      ensures count <= n * n
    {
      var initial := GetAdjacentVisibleDots(d);
      if initial == [] {
        return 0;
      }
      var seed := initial[Pick(draw, |initial|)];
      NeighboursAmongSound(Present(), d, Directions, seed);
      count := FloodFill(seed);
    }

    /** The iterative flood fill of clusterSizeFor: a stack of dots to visit and the set already counted. */
    method FloodFill(seed: Dot) returns (count: nat)
      requires Valid() && seed in Cells
      ensures count == |Component(Present(), seed)| && 1 <= count <= n * n
    {
      ghost var present := Present();
      count := 0;
      var stack: seq<Dot> := [seed];
      var considered: set<Dot> := {};
      ghost var board := set e | e in Cells;
      FillStart(present, seed);

      while stack != []
        invariant present <= Board && forall e :: e in Board ==> (e in present <==> e.state != Invisible)
        invariant FillInv(present, seed, stack, considered) && considered <= board
        invariant count == |considered|
        invariant seed in considered || seed in stack
        decreases |board - considered|, |stack|
      {
        ghost var prev := stack;
        var current := stack[|stack| - 1];
        stack := stack[..|stack| - 1];
        if current !in considered {
          FillVisit(present, seed, prev, considered, board);
          var adjacent := GetAdjacentVisibleDots(current);
          PresentIs(present);
          considered := considered + {current};
          count := count + 1;
          stack := stack + adjacent;
        } else {
          FillSkip(present, seed, prev, considered);
        }
      }

      FillDone(present, seed, considered);
      ComponentBound(present, seed);
      PresentIs(present);
    }
  }

  /** The row-by-row iterator over a grid: `counter` dots handed out so far. */
  class DotGridIterator {
    const grid: DotGrid
    var counter: nat

    constructor (g: DotGrid)
      ensures grid == g && counter == 0
    {
      grid := g;
      counter := 0;
    }

    predicate HasNext()
      reads this
    {
      counter < grid.n * grid.n
    }

    /**
     * next(): the dot at row `counter / n`, column `counter % n`. The counter moves on before the
     * array is read, so a call past the end still advances it and then fails.
     */
    method Next() returns (d: Option<Dot>)
      requires grid.Valid()
      modifies this`counter
      ensures counter == old(counter) + 1
      ensures old(counter) < grid.n * grid.n ==> d == Some(grid.Cells[old(counter)])
      ensures old(counter) >= grid.n * grid.n ==> d == None
    {
      var index := counter;
      counter := counter + 1;
      if index < grid.n * grid.n {
        var dot := grid.DotAt(index);
        d := Some(dot);
      } else {
        d := None;
      }
    }

    /** remove() is not supported. */
    method Remove() returns (r: Result<(), string>)
      ensures r.Failure?
    {
      r := Failure("UnsupportedOperationException");
    }
  }

  /** A for-each loop over the grid: every dot once, in row-major order. */
  method Traverse(g: DotGrid) returns (dots: seq<Dot>)
    requires g.Valid()
    ensures dots == g.Cells
  {
    var it := new DotGridIterator(g);
    dots := [];
    while it.HasNext()
      invariant it.grid == g && it.counter <= g.n * g.n && dots == g.Cells[..it.counter]
      decreases g.n * g.n - it.counter
    {
      var d := it.Next();
      dots := dots + [d.value];
    }
  }
}
