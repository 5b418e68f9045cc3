/**
  Nearest-anchor assignment of pixels to particles through a uniform grid of
  40-unit cells, as both animations do it (`mapPixelsToParticles` in the morph,
  the grid pass of `init` in the reconstruction). Particles are known here by
  their index and their anchor point; the grid maps a cell to the indices of the
  particles whose anchor lies in it. A pixel scans the 3×3 block of cells around
  its own, keeping the first particle of least squared distance, and falls back
  to a scan of every particle when that block holds none.
 */
module SpatialGrid {
  import opened Common

  const CellSize: real := 40.0

  type Cell = (int, int)

  /** The cell of a point: `floor(x / 40), floor(y / 40)`. */
  function CellOf(p: Point): Cell
  {
    ((p.x / CellSize).Floor, (p.y / CellSize).Floor)
  }

  /** Two points whose cells are at most one apart on each axis. */
  predicate Near(p: Point, q: Point)
  {
    var c, d := CellOf(p), CellOf(q);
    -1 <= c.0 - d.0 <= 1 && -1 <= c.1 - d.1 <= 1
  }

  /** Every element of `s` is an index below n. */
  predicate Indices(s: seq<nat>, n: nat)
  {
    forall i :: 0 <= i < |s| ==> s[i] < n
  }

  function Lookup(grid: map<Cell, seq<nat>>, c: Cell): seq<nat>
  {
    if c in grid then grid[c] else []
  }

  /** The particles among the first n whose anchor lies in cell c, in particle order. */
  function BucketUpTo(anchors: seq<Point>, c: Cell, n: nat): (b: seq<nat>)
    requires n <= |anchors|
    ensures Indices(b, n)
  {
    if n == 0 then []
    else BucketUpTo(anchors, c, n - 1) + (if CellOf(anchors[n - 1]) == c then [n - 1] else [])
  }

  function Bucket(anchors: seq<Point>, c: Cell): seq<nat>
  {
    BucketUpTo(anchors, c, |anchors|)
  }

  lemma {:induction false} BucketMembers(anchors: seq<Point>, c: Cell, n: nat, i: nat)
    requires n <= |anchors|
    ensures i in BucketUpTo(anchors, c, n) <==> i < n && CellOf(anchors[i]) == c
  {
    if n > 0 {
      BucketMembers(anchors, c, n - 1, i);
    }
  }

  /** The grid holds, under every cell, exactly that cell's bucket. */
  ghost predicate GridFor(grid: map<Cell, seq<nat>>, anchors: seq<Point>)
  {
    forall c :: Lookup(grid, c) == Bucket(anchors, c)
  }

  /**
    Populates the grid with every particle, in particle order, under its anchor's
    cell; a cell gets a key only when a particle is pushed into it.
   */
  method BuildGrid(anchors: seq<Point>) returns (grid: map<Cell, seq<nat>>)
    ensures GridFor(grid, anchors)
    ensures forall c :: c in grid ==> grid[c] != []
  {
    grid := map[];
    for i := 0 to |anchors|
      invariant Built(grid, anchors, i)
    {
      grid := Insert(grid, anchors, i);
    }
  }

  /** The grid holds the first n particles under their cells, and no key with an empty list. */
  ghost predicate Built(grid: map<Cell, seq<nat>>, anchors: seq<Point>, n: nat)
    requires n <= |anchors|
  {
    (forall c :: Lookup(grid, c) == BucketUpTo(anchors, c, n)) &&
    (forall c :: c in grid ==> grid[c] != [])
  }

  /** Pushes particle i into its anchor's cell, creating the cell's list when the cell has no key yet. */
  method Insert(grid0: map<Cell, seq<nat>>, anchors: seq<Point>, i: nat) returns (grid: map<Cell, seq<nat>>)
    requires i < |anchors| && Built(grid0, anchors, i)
    ensures Built(grid, anchors, i + 1)
  {
    grid := grid0;
    var key := CellOf(anchors[i]);
    if key !in grid {
      grid := grid[key := []];
    }
    grid := grid[key := grid[key] + [i]];
    forall c ensures Lookup(grid, c) == BucketUpTo(anchors, c, i + 1) {
      assert Lookup(grid, c) == Lookup(grid0, c) + (if key == c then [i] else []);
    }
  }


  /** The three cells of column x around row y, from y - 1 to y + 1. */
  function Column(x: int, y: int): (cells: seq<Cell>)
    ensures |cells| == 3
  {
    [(x, y - 1), (x, y), (x, y + 1)]
  }

  lemma ColumnAt(x: int, y: int, j: nat)
    requires j < 3
    ensures Column(x, y)[j] == (x, y - 1 + j)
  {
    if j == 0 {
    } else if j == 1 {
    } else {
    }
  }

  /** The nine cells around c, in the scan order: x outer, y inner, each from -1 to +1. */
  function BlockCells(c: Cell): (cells: seq<Cell>)
    ensures |cells| == 9
  {
    Column(c.0 - 1, c.1) + Column(c.0, c.1) + Column(c.0 + 1, c.1)
  }

  lemma InBlockCells(c: Cell, d: Cell)
    ensures d in BlockCells(c) <==> -1 <= d.0 - c.0 <= 1 && -1 <= d.1 - c.1 <= 1
  {
    assert d in BlockCells(c) <==> d in Column(c.0 - 1, c.1) || d in Column(c.0, c.1) || d in Column(c.0 + 1, c.1);
  }

  /** The block's columns up to column xx are those before it followed by column xx. */
  lemma BlockColumn(c: Cell, xx: int)
    requires c.0 - 1 <= xx < c.0 + 2
    ensures BlockCells(c)[..3 * ((xx + 1) - c.0 + 1)] == BlockCells(c)[..3 * (xx - c.0 + 1)] + Column(xx, c.1)
  {
  }

  /** The buckets of the given cells, one after another. */
  function Concat(anchors: seq<Point>, cells: seq<Cell>): (s: seq<nat>)
    ensures Indices(s, |anchors|)
  {
    if cells == [] then []
    else Concat(anchors, cells[..|cells| - 1]) + Bucket(anchors, cells[|cells| - 1])
  }

  /** Every list the grid holds names particles below n. */
  ghost predicate GridIndices(grid: map<Cell, seq<nat>>, n: nat)
  {
    forall c :: c in grid ==> Indices(grid[c], n)
  }

  lemma GridForIndices(grid: map<Cell, seq<nat>>, anchors: seq<Point>)
    requires GridFor(grid, anchors)
    ensures GridIndices(grid, |anchors|)
  {
    forall c | c in grid ensures Indices(grid[c], |anchors|) {
      assert Lookup(grid, c) == Bucket(anchors, c);
    }
  }

  /** The grid's lists under the given cells, one after another, as the block scan visits them. */
  function GridConcat(grid: map<Cell, seq<nat>>, n: nat, cells: seq<Cell>): (s: seq<nat>)
    requires GridIndices(grid, n)
    ensures Indices(s, n)
  {
    if cells == [] then []
    else GridConcat(grid, n, cells[..|cells| - 1]) + Lookup(grid, cells[|cells| - 1])
  }

  lemma GridConcatSnoc(grid: map<Cell, seq<nat>>, n: nat, cells: seq<Cell>, c: Cell)
    requires GridIndices(grid, n)
    ensures GridConcat(grid, n, cells + [c]) == GridConcat(grid, n, cells) + Lookup(grid, c)
  {
    assert (cells + [c])[..|cells|] == cells;
  }

  /** Over a grid built from the anchors, the lists under a run of cells are those cells' buckets. */
  lemma {:induction false} GridConcatIsConcat(grid: map<Cell, seq<nat>>, anchors: seq<Point>, cells: seq<Cell>)
    requires GridFor(grid, anchors) && GridIndices(grid, |anchors|)
    ensures GridConcat(grid, |anchors|, cells) == Concat(anchors, cells)
  {
    if cells != [] {
      var c := cells[|cells| - 1];
      GridConcatIsConcat(grid, anchors, cells[..|cells| - 1]);
      assert Lookup(grid, c) == Bucket(anchors, c);
    }
  }

  lemma {:induction false} ConcatMembers(anchors: seq<Point>, cells: seq<Cell>, i: nat)
    ensures i in Concat(anchors, cells) <==> i < |anchors| && CellOf(anchors[i]) in cells
  {
    if cells != [] {
      var init := cells[..|cells| - 1];
      ConcatMembers(anchors, init, i);
      BucketMembers(anchors, cells[|cells| - 1], |anchors|, i);
      assert cells == init + [cells[|cells| - 1]];
    }
  }

  /** The candidates a pixel at q scans first: every particle of its 3×3 block, in scan order. */
  function Block(anchors: seq<Point>, q: Point): seq<nat>
  {
    Concat(anchors, BlockCells(CellOf(q)))
  }

  /** A particle is a candidate of the block scan exactly when its anchor is Near the pixel. */
  lemma BlockMembers(anchors: seq<Point>, q: Point, i: nat)
    ensures i in Block(anchors, q) <==> i < |anchors| && Near(anchors[i], q)
  {
    ConcatMembers(anchors, BlockCells(CellOf(q)), i);
    if i < |anchors| {
      InBlockCells(CellOf(q), CellOf(anchors[i]));
    }
  }

  /** The distance from particle i's anchor to q. */
  function D(anchors: seq<Point>, q: Point, i: nat): real
    requires i < |anchors|
  {
    DistSq(anchors[i], q)
  }

  /**
    The running minimum of the scan: the particle kept after visiting `cands` in
    order, replacing the one kept only on a strictly smaller distance.
   */
  function FirstMin(anchors: seq<Point>, q: Point, cands: seq<nat>): (r: Option<nat>)
    requires Indices(cands, |anchors|)
    ensures r.None? <==> cands == []
    ensures r.Some? ==> r.value in cands
  {
    if cands == [] then None
    else
      var best := FirstMin(anchors, q, cands[..|cands| - 1]);
      var p := cands[|cands| - 1];
      if best.None? || D(anchors, q, p) < D(anchors, q, best.value) then Some(p) else best
  }

  /** The scan keeps a particle of least distance among the candidates. */
  lemma {:induction false} FirstMinIsLeast(anchors: seq<Point>, q: Point, cands: seq<nat>)
    requires Indices(cands, |anchors|) && cands != []
    ensures forall i :: 0 <= i < |cands| ==>
      D(anchors, q, FirstMin(anchors, q, cands).value) <= D(anchors, q, cands[i])
  {
    var init := cands[..|cands| - 1];
    if init != [] {
      FirstMinIsLeast(anchors, q, init);
      assert forall i :: 0 <= i < |init| ==> cands[i] == init[i];
    }
  }

  /** k is at the first position of `cands` holding the least distance. */
  ghost predicate IsFirstMinimum(anchors: seq<Point>, q: Point, cands: seq<nat>, k: nat)
    requires Indices(cands, |anchors|)
  {
    exists j :: 0 <= j < |cands| && cands[j] == k &&
      (forall i :: 0 <= i < |cands| ==> D(anchors, q, k) <= D(anchors, q, cands[i])) &&
      (forall i :: 0 <= i < j ==> D(anchors, q, cands[i]) > D(anchors, q, k))
  }

  lemma {:induction false} FirstMinIsFirstMinimum(anchors: seq<Point>, q: Point, cands: seq<nat>)
    requires Indices(cands, |anchors|) && cands != []
    ensures IsFirstMinimum(anchors, q, cands, FirstMin(anchors, q, cands).value)
  {
    var n := |cands| - 1;
    var init, p := cands[..n], cands[n];
    var best := FirstMin(anchors, q, init);
    var r := FirstMin(anchors, q, cands).value;
    FirstMinIsLeast(anchors, q, cands);
    if best.None? {
      assert cands[0] == r;
    } else if D(anchors, q, p) < D(anchors, q, best.value) {
      FirstMinIsLeast(anchors, q, init);
      forall i | 0 <= i < n ensures D(anchors, q, cands[i]) > D(anchors, q, r) {
        assert cands[i] == init[i];
      }
      assert cands[n] == r;
    } else {
      FirstMinIsFirstMinimum(anchors, q, init);
      var j :| 0 <= j < |init| && init[j] == r &&
        (forall i :: 0 <= i < |init| ==> D(anchors, q, r) <= D(anchors, q, init[i])) &&
        (forall i :: 0 <= i < j ==> D(anchors, q, init[i]) > D(anchors, q, r));
      forall i | 0 <= i < j ensures D(anchors, q, cands[i]) > D(anchors, q, r) {
        assert cands[i] == init[i];
      }
      assert cands[j] == r;
    }
  }

  /** The scan's result is the only particle that is first among the minima. */
  lemma FirstMinimumUnique(anchors: seq<Point>, q: Point, cands: seq<nat>, k: nat)
    requires Indices(cands, |anchors|)
    ensures FirstMin(anchors, q, cands) == Some(k) <==> IsFirstMinimum(anchors, q, cands, k)
  {
    if IsFirstMinimum(anchors, q, cands, k) {
      FirstMinIsFirstMinimum(anchors, q, cands);
      var r := FirstMin(anchors, q, cands).value;
      var j :| 0 <= j < |cands| && cands[j] == k &&
        (forall i :: 0 <= i < |cands| ==> D(anchors, q, k) <= D(anchors, q, cands[i])) &&
        (forall i :: 0 <= i < j ==> D(anchors, q, cands[i]) > D(anchors, q, k));
      var j' :| 0 <= j' < |cands| && cands[j'] == r &&
        (forall i :: 0 <= i < |cands| ==> D(anchors, q, r) <= D(anchors, q, cands[i])) &&
        (forall i :: 0 <= i < j' ==> D(anchors, q, cands[i]) > D(anchors, q, r));
      assert j == j';
    } else if cands != [] {
      FirstMinIsFirstMinimum(anchors, q, cands);
    }
  }

  /** Every particle index, in order: the fallback's candidates. */
  function AllParticles(n: nat): (s: seq<nat>)
    ensures |s| == n && Indices(s, n)
    ensures forall i :: 0 <= i < n ==> s[i] == i
  {
    seq(n, i => i)
  }

  /**
    The particle a pixel at q is given to: the block scan's result, or, when the
    block holds no particle, the full scan's; None only when there is no particle.
   */
  function Winner(anchors: seq<Point>, q: Point): (w: Option<nat>)
    ensures w.None? <==> |anchors| == 0
    ensures w.Some? ==> w.value < |anchors|
  {
    var local := FirstMin(anchors, q, Block(anchors, q));
    if local.Some? then local else FirstMin(anchors, q, AllParticles(|anchors|))
  }

  /**
    When some particle is Near the pixel, the winner is Near it too and has the
    least distance of all Near particles; otherwise the winner has the least
    distance of all particles.
   */
  lemma WinnerIsBlockMinimum(anchors: seq<Point>, q: Point)
    requires |anchors| > 0
    ensures (exists i :: 0 <= i < |anchors| && Near(anchors[i], q)) ==>
      Near(anchors[Winner(anchors, q).value], q) &&
      forall i :: 0 <= i < |anchors| && Near(anchors[i], q) ==>
        D(anchors, q, Winner(anchors, q).value) <= D(anchors, q, i)
    ensures (forall i :: 0 <= i < |anchors| ==> !Near(anchors[i], q)) ==>
      forall i :: 0 <= i < |anchors| ==> D(anchors, q, Winner(anchors, q).value) <= D(anchors, q, i)
  {
    var block := Block(anchors, q);
    var w := Winner(anchors, q).value;
    if exists i :: 0 <= i < |anchors| && Near(anchors[i], q) {
      var i0 :| 0 <= i0 < |anchors| && Near(anchors[i0], q);
      BlockMembers(anchors, q, i0);
      assert block != [];
      FirstMinIsLeast(anchors, q, block);
      BlockMembers(anchors, q, w);
      forall i | 0 <= i < |anchors| && Near(anchors[i], q)
        ensures D(anchors, q, w) <= D(anchors, q, i)
      {
        BlockMembers(anchors, q, i);
        var j :| 0 <= j < |block| && block[j] == i;
      }
    } else {
      if block != [] {
        BlockMembers(anchors, q, block[0]);
        assert false;
      }
      var all := AllParticles(|anchors|);
      FirstMinIsLeast(anchors, q, all);
      forall i | 0 <= i < |anchors| ensures D(anchors, q, w) <= D(anchors, q, i) {
        assert all[i] == i;
      }
    }
  }

  /** The full scan runs exactly when no particle is Near the pixel. */
  lemma FallbackOnlyWhenBlockEmpty(anchors: seq<Point>, q: Point)
    ensures Block(anchors, q) == [] <==> forall i :: 0 <= i < |anchors| ==> !Near(anchors[i], q)
  {
    var block := Block(anchors, q);
    if block != [] {
      BlockMembers(anchors, q, block[0]);
    }
    forall i | 0 <= i < |anchors| && Near(anchors[i], q) ensures block != [] {
      BlockMembers(anchors, q, i);
    }
  }

  /** Points closer than one cell width on an axis are in neighbouring cells. */
  lemma CloseIsNear(p: Point, q: Point)
    requires DistSq(p, q) < CellSize * CellSize
    ensures Near(p, q)
  {
    var dx, dy := p.x - q.x, p.y - q.y;
    assert DistSq(p, q) == dx * dx + dy * dy;
    assert dx * dx >= 0.0 && dy * dy >= 0.0;
    AxisClose(dx);
    AxisClose(dy);
    FloorsClose(p.x, q.x);
    FloorsClose(p.y, q.y);
  }

  lemma AxisClose(d: real)
    requires d * d < 1600.0
    ensures -40.0 < d < 40.0
  {
  }

  lemma FloorsClose(a: real, b: real)
    requires -40.0 < a - b < 40.0
    ensures -1 <= (a / CellSize).Floor - (b / CellSize).Floor <= 1
  {
    var u, v := a / CellSize, b / CellSize;
    assert -1.0 < u - v < 1.0;
  }

  /**
    The grid search is exact whenever its winner lies within one cell width of the
    pixel: no particle anywhere is strictly closer.
   */
  lemma WinnerExactWhenClose(anchors: seq<Point>, q: Point)
    requires |anchors| > 0
    requires D(anchors, q, Winner(anchors, q).value) <= CellSize * CellSize
    ensures forall i :: 0 <= i < |anchors| ==> D(anchors, q, Winner(anchors, q).value) <= D(anchors, q, i)
  {
    var w := Winner(anchors, q).value;
    WinnerIsBlockMinimum(anchors, q);
    forall i | 0 <= i < |anchors| ensures D(anchors, q, w) <= D(anchors, q, i) {
      if D(anchors, q, i) < D(anchors, q, w) {
        CloseIsNear(anchors[i], q);
      }
    }
  }

  /**
    One `for (let p of list)` pass of the search: visits `cands` in order and
    replaces the kept particle whenever one is strictly closer. `scanned` is what
    the search has visited before this pass.
   */
  method ScanCandidates(anchors: seq<Point>, q: Point, cands: seq<nat>, ghost scanned: seq<nat>,
                        closest0: Option<nat>, minDist0: real)
    returns (closest: Option<nat>, minDist: real)
    requires Indices(cands, |anchors|)
    requires Running(anchors, q, scanned, closest0, minDist0)
    ensures Running(anchors, q, scanned + cands, closest, minDist)
  {
    closest, minDist := closest0, minDist0;
    assert scanned + cands[..0] == scanned;
    for j := 0 to |cands|
      invariant Running(anchors, q, scanned + cands[..j], closest, minDist)
    {
      CandidatesSnoc(scanned, cands, j);
      closest, minDist := Consider(anchors, q, cands[j], scanned + cands[..j], closest, minDist);
    }
    assert cands[..|cands|] == cands;
  }

  /**
    The state of a scan after visiting the particles `visited` in order: `closest`
    is their running minimum and `minDist` its distance.
   */
  ghost predicate Running(anchors: seq<Point>, q: Point, visited: seq<nat>, closest: Option<nat>, minDist: real)
  {
    Indices(visited, |anchors|) &&
    closest == FirstMin(anchors, q, visited) &&
    (closest.Some? ==> minDist == D(anchors, q, closest.value))
  }

  lemma CandidatesSnoc(scanned: seq<nat>, cands: seq<nat>, j: nat)
    requires j < |cands|
    ensures scanned + cands[..j + 1] == (scanned + cands[..j]) + [cands[j]]
  {
    assert cands[..j + 1] == cands[..j] + [cands[j]];
  }

  /** One candidate of a cell's list: it becomes the closest when no particle is kept yet or it is strictly nearer. */
  method Consider(anchors: seq<Point>, q: Point, p: nat, ghost visited: seq<nat>, closest0: Option<nat>, minDist0: real)
    returns (closest: Option<nat>, minDist: real)
    requires p < |anchors|
    requires Running(anchors, q, visited, closest0, minDist0)
    ensures Running(anchors, q, visited + [p], closest, minDist)
  {
    closest, minDist := closest0, minDist0;
    var distSq := DistSq(anchors[p], q);
    assert (visited + [p])[..|visited|] == visited;
    // `closest.None?` plays the part of `minDist === Infinity`.
    if closest.None? || distSq < minDist {
      minDist := distSq;
      closest := Some(p);
    }
  }

  /**
    The state of the block scan after visiting `cells` in order: `closest` is the
    running minimum over their lists and `minDist` its distance.
   */
  ghost predicate Scanned(grid: map<Cell, seq<nat>>, anchors: seq<Point>, q: Point, cells: seq<Cell>,
                          closest: Option<nat>, minDist: real)
    requires GridIndices(grid, |anchors|)
  {
    closest == FirstMin(anchors, q, GridConcat(grid, |anchors|, cells)) &&
    (closest.Some? ==> minDist == D(anchors, q, closest.value))
  }

  /** The visit of one cell of the block: the cell's list is scanned when the grid has the cell. */
  method ScanCell(grid: map<Cell, seq<nat>>, anchors: seq<Point>, q: Point, key: Cell, ghost visited: seq<Cell>,
                  closest0: Option<nat>, minDist0: real)
    returns (closest: Option<nat>, minDist: real)
    requires GridIndices(grid, |anchors|)
    requires Scanned(grid, anchors, q, visited, closest0, minDist0)
    ensures Scanned(grid, anchors, q, visited + [key], closest, minDist)
  {
    ghost var scanned := GridConcat(grid, |anchors|, visited);
    GridConcatSnoc(grid, |anchors|, visited, key);
    closest, minDist := closest0, minDist0;
    if key in grid {
      closest, minDist := ScanCandidates(anchors, q, grid[key], scanned, closest, minDist);
    } else {
      assert scanned + Lookup(grid, key) == scanned;
    }
  }

  /** Visiting cell (x, yy) of column x extends the visited run by that cell. */
  lemma ColumnPrefixSnoc(prefix: seq<Cell>, x: int, y: int, yy: int)
    requires y - 1 <= yy < y + 2
    ensures prefix + Column(x, y)[..(yy + 1) - y + 1] == (prefix + Column(x, y)[..yy - y + 1]) + [(x, yy)]
  {
    var j := yy - y + 1;
    ColumnAt(x, y, j);
    assert Column(x, y)[..j + 1] == Column(x, y)[..j] + [Column(x, y)[j]];
  }

  /**
    The inner loop of the block scan: the three cells (xx, gy - 1), (xx, gy) and
    (xx, gy + 1), after the cells `prefix` of the columns before.
   */
  method ScanColumn(grid: map<Cell, seq<nat>>, anchors: seq<Point>, q: Point, ghost prefix: seq<Cell>,
                    xx: int, gy: int, closest0: Option<nat>, minDist0: real)
    returns (closest: Option<nat>, minDist: real)
    requires GridIndices(grid, |anchors|)
    requires Scanned(grid, anchors, q, prefix, closest0, minDist0)
    ensures Scanned(grid, anchors, q, prefix + Column(xx, gy), closest, minDist)
  {
    closest, minDist := closest0, minDist0;
    ghost var visited := prefix;
    assert prefix + Column(xx, gy)[..0] == prefix;
    for yy := gy - 1 to gy + 2
      invariant visited == prefix + Column(xx, gy)[..yy - gy + 1]
      invariant Scanned(grid, anchors, q, visited, closest, minDist)
    {
      ColumnPrefixSnoc(prefix, xx, gy, yy);
      closest, minDist := ScanCell(grid, anchors, q, (xx, yy), visited, closest, minDist);
      visited := visited + [(xx, yy)];
    }
    assert Column(xx, gy)[..3] == Column(xx, gy);
  }

  /**
    The first pass of the search: the running minimum over the nine cells of the
    3×3 block around q's cell, x outer and y inner, each list in grid order.
   */
  method ScanBlock(grid: map<Cell, seq<nat>>, anchors: seq<Point>, q: Point)
    returns (closest: Option<nat>, minDist: real)
    requires GridIndices(grid, |anchors|)
    ensures Scanned(grid, anchors, q, BlockCells(CellOf(q)), closest, minDist)
  {
    var cell := CellOf(q);
    var gx, gy := cell.0, cell.1;
    ghost var cells := BlockCells(cell);
    // While closest is None, minDist stands for JavaScript's Infinity.
    minDist := 0.0;
    closest := None;
    assert cells[..0] == [];
    for xx := gx - 1 to gx + 2
      invariant Scanned(grid, anchors, q, cells[..3 * (xx - gx + 1)], closest, minDist)
    {
      BlockColumn(cell, xx);
      closest, minDist := ScanColumn(grid, anchors, q, cells[..3 * (xx - gx + 1)], xx, gy, closest, minDist);
    }
    assert cells[..9] == cells;
  }

  /**
    Finds the particle for a pixel at q: the running minimum over the 3×3 block
    around q's cell, then over all particles if the block held none.
   */
  method Nearest(grid: map<Cell, seq<nat>>, anchors: seq<Point>, q: Point) returns (closest: Option<nat>)
    requires GridFor(grid, anchors)
    ensures closest == Winner(anchors, q)
  {
    GridForIndices(grid, anchors);
    GridConcatIsConcat(grid, anchors, BlockCells(CellOf(q)));
    var minDist;
    closest, minDist := ScanBlock(grid, anchors, q);
    if closest.None? {
      closest, minDist := ScanCandidates(anchors, q, AllParticles(|anchors|), [], closest, minDist);
      assert [] + AllParticles(|anchors|) == AllParticles(|anchors|);
    }
  }

  /** The pixels an ownership function gives to particle k, in pixel order. */
  function Owned(pixels: seq<Pixel>, owner: Pixel -> Option<nat>, k: nat): seq<Pixel>
  {
    if pixels == [] then []
    else
      var last := pixels[|pixels| - 1];
      Owned(pixels[..|pixels| - 1], owner, k) + (if owner(last) == Some(k) then [last] else [])
  }

  lemma OwnedSnoc(pixels: seq<Pixel>, px: Pixel, owner: Pixel -> Option<nat>, k: nat)
    ensures Owned(pixels + [px], owner, k) == Owned(pixels, owner, k) + (if owner(px) == Some(k) then [px] else [])
  {
    assert (pixels + [px])[..|pixels|] == pixels;
  }

  /** The union of the lists of particles 0 .. m-1. */
  function OwnedBelow(pixels: seq<Pixel>, owner: Pixel -> Option<nat>, m: nat): multiset<Pixel>
  {
    if m == 0 then multiset{} else OwnedBelow(pixels, owner, m - 1) + multiset(Owned(pixels, owner, m - 1))
  }

  /** Particle k's list holds a pixel x as often as the input does when x belongs to k, and never otherwise. */
  lemma {:induction false} OwnedCount(pixels: seq<Pixel>, owner: Pixel -> Option<nat>, k: nat, x: Pixel)
    ensures multiset(Owned(pixels, owner, k))[x] == if owner(x) == Some(k) then multiset(pixels)[x] else 0
  {
    if pixels != [] {
      var init, last := pixels[..|pixels| - 1], pixels[|pixels| - 1];
      OwnedCount(init, owner, k, x);
      assert pixels == init + [last];
      var rest := Owned(init, owner, k);
      if owner(last) == Some(k) {
        assert Owned(pixels, owner, k) == rest + [last];
      } else {
        assert Owned(pixels, owner, k) == rest;
      }
    }
  }

  /** The lists of particles 0 .. m-1 together hold x as often as the input does when x belongs to one of them. */
  lemma {:induction false} OwnedBelowCount(pixels: seq<Pixel>, owner: Pixel -> Option<nat>, m: nat, x: Pixel)
    ensures OwnedBelow(pixels, owner, m)[x] ==
      if owner(x).Some? && owner(x).value < m then multiset(pixels)[x] else 0
  {
    if m > 0 {
      var k := m - 1;
      var before, own := OwnedBelow(pixels, owner, k), multiset(Owned(pixels, owner, k));
      assert OwnedBelow(pixels, owner, m) == before + own;
      assert OwnedBelow(pixels, owner, m)[x] == before[x] + own[x];
      OwnedBelowCount(pixels, owner, k, x);
      OwnedCount(pixels, owner, k, x);
      var count := multiset(pixels)[x];
      if owner(x) == Some(k) {
        assert before[x] == 0 && own[x] == count;
      } else if owner(x).Some? && owner(x).value < k {
        assert before[x] == count && own[x] == 0;
      } else {
        assert before[x] == 0 && own[x] == 0;
      }
    } else {
      var o := owner(x);
      assert o.Some? ==> o.value >= 0;
      assert OwnedBelow(pixels, owner, m)[x] == 0;
    }
  }

  /**
    An ownership function that gives every pixel to one of n particles splits any
    pixel list among the n lists with nothing lost and nothing duplicated.
   */
  lemma OwnershipPartitions(pixels: seq<Pixel>, owner: Pixel -> Option<nat>, n: nat)
    requires forall px :: owner(px).Some? && owner(px).value < n
    ensures OwnedBelow(pixels, owner, n) == multiset(pixels)
  {
    forall x ensures OwnedBelow(pixels, owner, n)[x] == multiset(pixels)[x] {
      OwnedBelowCount(pixels, owner, n, x);
    }
  }

  /** An owned pixel comes from the input and is owned by k. */
  lemma {:induction false} OwnedFromInput(pixels: seq<Pixel>, owner: Pixel -> Option<nat>, k: nat, i: nat)
    requires i < |Owned(pixels, owner, k)|
    ensures owner(Owned(pixels, owner, k)[i]) == Some(k)
    ensures Owned(pixels, owner, k)[i] in pixels
  {
    var init := pixels[..|pixels| - 1];
    if i < |Owned(init, owner, k)| {
      OwnedFromInput(init, owner, k, i);
      assert Owned(init, owner, k)[i] in init;
      assert init <= pixels;
    }
  }

  /** The grid assignment as an ownership function: a pixel belongs to its Winner. */
  function Owner(anchors: seq<Point>): Pixel -> Option<nat>
  {
    (px: Pixel) => Winner(anchors, px.Pos())
  }

  /** The pixels given to particle k, in pixel order. */
  function Assigned(pixels: seq<Pixel>, anchors: seq<Point>, k: nat): seq<Pixel>
  {
    Owned(pixels, Owner(anchors), k)
  }

  /**
    Gives every pixel to its Winner: builds the grid over the anchors, then
    appends each pixel, in pixel order, to the list of the particle found for it.
    lists[k] is particle k's list of dependent pixels.
   */
  method MapPixelsToParticles(pixels: seq<Pixel>, anchors: seq<Point>) returns (lists: seq<seq<Pixel>>)
    ensures |lists| == |anchors|
    ensures forall k :: 0 <= k < |anchors| ==> lists[k] == Assigned(pixels, anchors, k)
  {
    var grid := BuildGrid(anchors);
    lists := seq(|anchors|, _ => []);
    for j := 0 to |pixels|
      invariant Distributed(pixels[..j], anchors, lists)
    {
      assert pixels[..j + 1] == pixels[..j] + [pixels[j]];
      lists := Place(grid, anchors, pixels[..j], pixels[j], lists);
    }
    assert pixels[..|pixels|] == pixels;
  }

  /** The lists hold, for each particle, the pixels of `done` assigned to it, in pixel order. */
  ghost predicate Distributed(done: seq<Pixel>, anchors: seq<Point>, lists: seq<seq<Pixel>>)
  {
    |lists| == |anchors| &&
    forall k :: 0 <= k < |anchors| ==> lists[k] == Assigned(done, anchors, k)
  }

  /** Appends one pixel to the list of its nearest particle, if any. */
  method Place(grid: map<Cell, seq<nat>>, anchors: seq<Point>, ghost done: seq<Pixel>, px: Pixel,
               lists0: seq<seq<Pixel>>) returns (lists: seq<seq<Pixel>>)
    requires GridFor(grid, anchors) && Distributed(done, anchors, lists0)
    ensures Distributed(done + [px], anchors, lists)
  {
    var closest := Nearest(grid, anchors, px.Pos());
    forall k | 0 <= k < |anchors|
      ensures Assigned(done + [px], anchors, k) == Assigned(done, anchors, k) + (if closest == Some(k) then [px] else [])
    {
      OwnedSnoc(done, px, Owner(anchors), k);
    }
    lists := lists0;
    if closest.Some? {
      lists := lists[closest.value := lists[closest.value] + [px]];
    }
  }


  /**
    Partition: with at least one particle, the particles' lists together hold every
    pixel exactly as often as the input does — none dropped, none given twice.
   */
  lemma AssignmentPartitions(pixels: seq<Pixel>, anchors: seq<Point>)
    requires |anchors| > 0
    ensures OwnedBelow(pixels, Owner(anchors), |anchors|) == multiset(pixels)
  {
    OwnershipPartitions(pixels, Owner(anchors), |anchors|);
  }

  /** Without particles no pixel is assigned: the pixels are dropped, silently. */
  lemma {:induction false} NoParticlesNoAssignment(pixels: seq<Pixel>, anchors: seq<Point>, k: nat)
    requires |anchors| == 0
    ensures Assigned(pixels, anchors, k) == []
  {
    if pixels != [] {
      NoParticlesNoAssignment(pixels[..|pixels| - 1], anchors, k);
    }
  }

  /** A pixel reaches particle k's list only when k is that pixel's Winner. */
  lemma AssignedOnlyToWinner(pixels: seq<Pixel>, anchors: seq<Point>, k: nat, i: nat)
    requires i < |Assigned(pixels, anchors, k)|
    ensures Winner(anchors, Assigned(pixels, anchors, k)[i].Pos()) == Some(k)
    ensures Assigned(pixels, anchors, k)[i] in pixels
  {
    OwnedFromInput(pixels, Owner(anchors), k, i);
  }
}
