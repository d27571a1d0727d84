/** The spatial partition of boids.js: the `Matrix` class, `Boid.addToPartition`,
    the re-population at the start of `physics`, and the wrapped 3×3 gather.

The grid has `Ceil(W/r)+2` rows (indexed by x) and `Ceil(H/r)+2` columns
(indexed by y), `r` the vision radius. A boid at `(x, y)` goes into bucket
`(Floor(x/r)+1, Floor(y/r)+1)`. Buckets hold boid indices.
 */
module Grid {
  import opened Vectors
  import opened Config

  /** `Math.ceil`. */
  function Ceil(r: real): (k: int)
    ensures r <= k as real < r + 1.0
  {
    -((-r).Floor)
  }

  const Rows: int := Ceil(CanvasWidth / VisionRadius) + 2
  const Cols: int := Ceil(CanvasHeight / VisionRadius) + 2

  /** The grid the source builds is 51 by 29. */
  lemma {:induction false} GridSize()
    ensures Rows == 51 && Cols == 29
  {
  }

  datatype Cell = Cell(row: int, col: int)

  /** `Math.floor(c / VISION_RADIUS) + 1`: bucket `k` covers `[(k-1)r, kr)`. */
  function CellIndex(c: real): (k: int)
    ensures (k - 1) as real * VisionRadius <= c < k as real * VisionRadius
  {
    (c / VisionRadius).Floor + 1
  }

  function CellOf(p: Vector): Cell {
    Cell(CellIndex(p.x), CellIndex(p.y))
  }

  predicate InArena(p: Vector) {
    0.0 <= p.x <= CanvasWidth && 0.0 <= p.y <= CanvasHeight
  }

  /** A cell away from the one-cell margin round the grid. */
  predicate Interior(c: Cell) {
    1 <= c.row <= Rows - 2 && 1 <= c.col <= Cols - 2
  }

  /** Two cells that touch without any wrap-around (a cell touches itself). */
  predicate Adjacent(a: Cell, b: Cell) {
    -1 <= a.row - b.row <= 1 && -1 <= a.col - b.col <= 1
  }

  /** Every position in the arena maps to an interior bucket. */
  lemma {:induction false} ArenaCellInterior(p: Vector)
    requires InArena(p)
    ensures Interior(CellOf(p))
  {
    GridSize();
  }

  /** Coordinates closer than the cell size land in the same or neighbouring buckets. */
  lemma {:induction false} NearbyIndices(a: real, b: real)
    requires -VisionRadius < a - b < VisionRadius
    ensures -1 <= CellIndex(a) - CellIndex(b) <= 1
  {
  }

  /** Two positions within vision distance fall in adjacent buckets. */
  lemma {:induction false} WithinVisionAdjacent(p: Vector, q: Vector)
    requires DistSq(p, q) < Sq(VisionRadius)
    ensures Adjacent(CellOf(p), CellOf(q))
  {
    DistSqBoundsAxes(p, q);
    SqLessAbs(p.x - q.x, VisionRadius);
    SqLessAbs(p.y - q.y, VisionRadius);
    NearbyIndices(p.x, q.x);
    NearbyIndices(p.y, q.y);
  }

  /** The grid: `rows × cols` buckets of boid indices. */
  datatype Matrix = Matrix(rows: nat, cols: nat, data: seq<seq<seq<nat>>>)

  predicate WellShaped(m: Matrix) {
    |m.data| == m.rows && forall i :: 0 <= i < |m.data| ==> |m.data[i]| == m.cols
  }

  predicate InBounds(m: Matrix, c: Cell) {
    0 <= c.row < m.rows && 0 <= c.col < m.cols
  }

  function Bucket(m: Matrix, c: Cell): seq<nat>
    requires WellShaped(m) && InBounds(m, c)
  {
    m.data[c.row][c.col]
  }

  /** The `Matrix` constructor: every bucket empty. */
  function NewMatrix(rows: nat, cols: nat): (m: Matrix)
    ensures WellShaped(m) && m.rows == rows && m.cols == cols
    ensures forall i, j :: 0 <= i < rows && 0 <= j < cols ==> m.data[i][j] == []
  {
    Matrix(rows, cols, seq(rows, _ => seq(cols, _ => [])))
  }

  /** `clear`: same dimensions, every bucket empty, whatever the grid held. */
  function Clear(m: Matrix): (r: Matrix)
    ensures WellShaped(r) && r.rows == m.rows && r.cols == m.cols
    ensures forall i, j :: 0 <= i < r.rows && 0 <= j < r.cols ==> r.data[i][j] == []
  {
    NewMatrix(m.rows, m.cols)
  }

  /** Inserting a boid either succeeds or raises the `TypeError` JavaScript
      throws when `data[i]` or `data[i][j]` is undefined. */
  datatype Outcome = Ok(grid: Matrix) | TypeError(boid: nat)

  /** `addToPartition`: append boid `k` to the bucket of its position; the
      bucket must exist. */
  function AddToPartition(m: Matrix, k: nat, p: Vector): (r: Outcome)
    requires WellShaped(m)
    ensures r.Ok? <==> InBounds(m, CellOf(p))
    ensures r.TypeError? ==> r.boid == k
    ensures r.Ok? ==> WellShaped(r.grid) && r.grid.rows == m.rows && r.grid.cols == m.cols
    ensures r.Ok? ==> forall i, j :: 0 <= i < m.rows && 0 <= j < m.cols ==>
      r.grid.data[i][j] == m.data[i][j] + (if Cell(i, j) == CellOf(p) then [k] else [])
  {
    var c := CellOf(p);
    if 0 <= c.row < |m.data| && 0 <= c.col < |m.data[c.row]| then
      Ok(m.(data := m.data[c.row := m.data[c.row][c.col := m.data[c.row][c.col] + [k]]]))
    else
      TypeError(k)
  }

  /** The indices of the positions in `ps` that map to cell `c`, in order. */
  function Members(ps: seq<Vector>, c: Cell): (r: seq<nat>)
    ensures forall k :: k in r ==> k < |ps| && CellOf(ps[k]) == c
    ensures forall k :: 0 <= k < |ps| && CellOf(ps[k]) == c ==> k in r
    decreases |ps|
  {
    if |ps| == 0 then []
    else
      var last := |ps| - 1;
      assert forall k :: 0 <= k < last ==> ps[..last][k] == ps[k];
      Members(ps[..last], c) + (if CellOf(ps[last]) == c then [last] else [])
  }

  /** A bucket lists each of its boids exactly once. */
  lemma {:induction false} MembersCount(ps: seq<Vector>, c: Cell, k: nat)
    ensures multiset(Members(ps, c))[k] == if k < |ps| && CellOf(ps[k]) == c then 1 else 0
    decreases |ps|
  {
    if |ps| > 0 {
      var last := |ps| - 1;
      MembersCount(ps[..last], c, k);
      if k < last {
        assert ps[..last][k] == ps[k];
      }
    }
  }

  /** `GRID.clear()` followed by `addToPartition` for every boid in order.
      The first boid whose bucket does not exist raises the error. */
  function Populate(m: Matrix, ps: seq<Vector>): (r: Outcome)
    requires WellShaped(m)
    ensures r.Ok? ==> WellShaped(r.grid) && r.grid.rows == m.rows && r.grid.cols == m.cols
    decreases |ps|
  {
    if |ps| == 0 then Ok(m)
    else
      var last := |ps| - 1;
      match Populate(m, ps[..last])
      case TypeError(k) => TypeError(k)
      case Ok(g) => AddToPartition(g, last, ps[last])
  }

  /** Re-population succeeds exactly when every boid's bucket exists; when it
      fails, the error names the first boid without a bucket. */
  lemma {:induction false} PopulateOutcome(m: Matrix, ps: seq<Vector>)
    requires WellShaped(m)
    ensures Populate(m, ps).Ok? <==> forall k :: 0 <= k < |ps| ==> InBounds(m, CellOf(ps[k]))
    ensures Populate(m, ps).TypeError? ==>
      var b := Populate(m, ps).boid;
      b < |ps| && !InBounds(m, CellOf(ps[b])) &&
      forall k :: 0 <= k < b ==> InBounds(m, CellOf(ps[k]))
    decreases |ps|
  {
    if |ps| > 0 {
      var last := |ps| - 1;
      var init := ps[..last];
      PopulateOutcome(m, init);
      assert forall k :: 0 <= k < last ==> init[k] == ps[k];
      match Populate(m, init)
      case TypeError(b) =>
        assert Populate(m, ps) == TypeError(b);
      case Ok(g) =>
        assert Populate(m, ps) == AddToPartition(g, last, ps[last]);
        assert InBounds(g, CellOf(ps[last])) == InBounds(m, CellOf(ps[last]));
    }
  }

  /** Re-populating with one more position appends that position's index to
      its own bucket and to no other. */
  lemma {:induction false} PopulateLast(m: Matrix, ps: seq<Vector>, c: Cell)
    requires WellShaped(m) && InBounds(m, c)
    requires |ps| > 0 && Populate(m, ps).Ok?
    ensures Populate(m, ps[..|ps| - 1]).Ok?
    ensures Populate(m, ps).grid.data[c.row][c.col] ==
      Populate(m, ps[..|ps| - 1]).grid.data[c.row][c.col] + (if CellOf(ps[|ps| - 1]) == c then [|ps| - 1] else [])
  {
    assert c == Cell(c.row, c.col);
  }

  /** After re-population each bucket holds what it held before followed by
      the indices of the boids in that cell, in index order. */
  lemma {:induction false} PopulateContents(m: Matrix, ps: seq<Vector>)
    requires WellShaped(m)
    requires Populate(m, ps).Ok?
    ensures forall i, j :: 0 <= i < m.rows && 0 <= j < m.cols ==>
      Populate(m, ps).grid.data[i][j] == m.data[i][j] + Members(ps, Cell(i, j))
    decreases |ps|
  {
    if |ps| > 0 {
      var last := |ps| - 1;
      assert Populate(m, ps[..last]).Ok?;
      PopulateContents(m, ps[..last]);
      forall i, j | 0 <= i < m.rows && 0 <= j < m.cols
        ensures Populate(m, ps).grid.data[i][j] == m.data[i][j] + Members(ps, Cell(i, j))
      {
        PopulateLast(m, ps, Cell(i, j));
      }
    }
  }

  /** The grid `physics` builds from the positions `ps`: `Clear(m)` repopulated. */
  predicate Populated(m: Matrix, ps: seq<Vector>) {
    WellShaped(m) && m.rows == Rows && m.cols == Cols &&
    forall i, j :: 0 <= i < Rows && 0 <= j < Cols ==> m.data[i][j] == Members(ps, Cell(i, j))
  }

  predicate AllInArena(ps: seq<Vector>) {
    forall k :: 0 <= k < |ps| ==> InArena(ps[k])
  }

  /** Rebuilding a `Rows × Cols` grid from positions inside the arena never
      fails, and yields the grid whose buckets are exactly the members of each cell. */
  lemma {:induction false} PopulateArena(m: Matrix, ps: seq<Vector>)
    requires m.rows == Rows && m.cols == Cols
    requires AllInArena(ps)
    ensures Populate(Clear(m), ps).Ok?
    ensures Populated(Populate(Clear(m), ps).grid, ps)
  {
    forall k | 0 <= k < |ps|
      ensures InBounds(Clear(m), CellOf(ps[k]))
    {
      ArenaCellInterior(ps[k]);
    }
    PopulateOutcome(Clear(m), ps);
    PopulateContents(Clear(m), ps);
  }

  /** Every boid is in exactly one bucket, the one its position maps to. */
  lemma {:induction false} OneBucketEach(m: Matrix, ps: seq<Vector>, k: nat, c: Cell)
    requires Populated(m, ps) && InBounds(m, c)
    requires k < |ps|
    ensures multiset(Bucket(m, c))[k] == if c == CellOf(ps[k]) then 1 else 0
  {
    MembersCount(ps, c, k);
  }

  /** Every boid in the bucket of `c` sits in cell `c`. */
  lemma {:induction false} BucketCells(m: Matrix, ps: seq<Vector>, c: Cell)
    requires Populated(m, ps) && InBounds(m, c)
    ensures forall j :: 0 <= j < |Bucket(m, c)| ==>
      Bucket(m, c)[j] < |ps| && CellOf(ps[Bucket(m, c)[j]]) == c
  {
    assert c == Cell(c.row, c.col);
    forall j | 0 <= j < |Bucket(m, c)|
      ensures Bucket(m, c)[j] < |ps| && CellOf(ps[Bucket(m, c)[j]]) == c
    {
      assert Bucket(m, c)[j] in Members(ps, c);
    }
  }

  /** The margin of the grid stays empty: row 0, row `Rows-1`, column 0 and
      column `Cols-1` never receive a boid when all boids are in the arena. */
  lemma {:induction false} SeamEmpty(m: Matrix, ps: seq<Vector>, c: Cell)
    requires Populated(m, ps) && AllInArena(ps)
    requires InBounds(m, c) && !Interior(c)
    ensures Bucket(m, c) == []
  {
    if Bucket(m, c) != [] {
      var k := Bucket(m, c)[0];
      assert k in Members(ps, c);
      ArenaCellInterior(ps[k]);
      assert false;
    }
  }

  /** The buckets on the one-cell margin of the grid are empty. */
  ghost predicate MarginEmpty(m: Matrix)
    requires WellShaped(m)
  {
    forall c :: InBounds(m, c) && !Interior(c) ==> Bucket(m, c) == []
  }

  /** A grid built from positions inside the arena has an empty margin. */
  lemma {:induction false} ArenaMarginEmpty(m: Matrix, ps: seq<Vector>)
    requires Populated(m, ps) && AllInArena(ps)
    ensures MarginEmpty(m)
  {
    forall c | InBounds(m, c) && !Interior(c)
      ensures Bucket(m, c) == []
    {
      SeamEmpty(m, ps, c);
    }
  }

  /** Reducing a value below `2n` modulo `n` subtracts `n` at most once. */
  lemma {:induction false} ModOnce(a: int, n: int)
    requires 0 < n && 0 <= a < 2 * n
    ensures a % n == if a < n then a else a - n
  {
    if a >= n {
      assert a == 1 * n + (a - n);
    }
  }

  /** `(i+1) % n`: the next index, wrapping to 0. */
  function Forward(i: int, n: int): (r: int)
    requires 0 <= i < n
    ensures 0 <= r < n
    ensures r == if i + 1 < n then i + 1 else 0
  {
    ModOnce(i + 1, n);
    (i + 1) % n
  }

  /** `(i+n-1) % n`: the previous index, wrapping to `n-1`. */
  function Back(i: int, n: int): (r: int)
    requires 0 <= i < n
    ensures 0 <= r < n
    ensures r == if 0 < i then i - 1 else n - 1
  {
    ModOnce(i + n - 1, n);
    (i + n - 1) % n
  }

  /** The nine buckets gathered for the boids of `c`, in the order the
      source concatenates them. */
  function Block(m: Matrix, c: Cell): (r: seq<Cell>)
    requires InBounds(m, c)
    ensures |r| == 9 && forall d :: d in r ==> InBounds(m, d)
  {
    var i, j := c.row, c.col;
    var iF, iB := Forward(i, m.rows), Back(i, m.rows);
    var jF, jB := Forward(j, m.cols), Back(j, m.cols);
    [Cell(i, j), Cell(iF, jF), Cell(iF, j), Cell(iF, jB), Cell(i, jB),
     Cell(iB, jB), Cell(iB, j), Cell(iB, jF), Cell(i, jF)]
  }

  /** The buckets of `cells`, concatenated in order. */
  function Concat(m: Matrix, cells: seq<Cell>): seq<nat>
    requires WellShaped(m)
    requires forall d :: d in cells ==> InBounds(m, d)
  {
    if |cells| == 0 then [] else Bucket(m, cells[0]) + Concat(m, cells[1..])
  }

  /** `boidsToCheck`: the nine buckets of `Block(m, c)` concatenated. */
  function Gather(m: Matrix, c: Cell): seq<nat>
    requires WellShaped(m) && InBounds(m, c)
  {
    Concat(m, Block(m, c))
  }

  /** Every bucket holds only indices below `n`. */
  predicate IndicesBelow(m: Matrix, n: nat) {
    WellShaped(m) &&
    forall i, j, o :: 0 <= i < m.rows && 0 <= j < m.cols && o in m.data[i][j] ==> o < n
  }

  lemma {:induction false} PopulatedBelow(m: Matrix, ps: seq<Vector>)
    requires Populated(m, ps)
    ensures IndicesBelow(m, |ps|)
  {
  }

  /** Every entry of `cands` names a boid of a flock of `n`. */
  predicate Below(cands: seq<nat>, n: nat) {
    forall i :: 0 <= i < |cands| ==> cands[i] < n
  }

  lemma {:induction false} ConcatBelow(m: Matrix, cells: seq<Cell>, n: nat)
    requires IndicesBelow(m, n)
    requires forall d :: d in cells ==> InBounds(m, d)
    ensures Below(Concat(m, cells), n)
  {
    if |cells| > 0 {
      ConcatBelow(m, cells[1..], n);
      var c0 := cells[0];
      assert forall o :: o in Bucket(m, c0) ==> o in m.data[c0.row][c0.col];
      var b0 := Bucket(m, c0);
      assert Concat(m, cells) == b0 + Concat(m, cells[1..]);
      forall i | 0 <= i < |Concat(m, cells)|
        ensures Concat(m, cells)[i] < n
      {
        var rest := Concat(m, cells[1..]);
        assert |Concat(m, cells)| == |b0| + |rest|;
        if i < |b0| {
          assert b0[i] in m.data[c0.row][c0.col];
        } else {
          assert Concat(m, cells)[i] == rest[i - |b0|];
        }
      }
    }
  }

  lemma {:induction false} BucketBelow(m: Matrix, c: Cell, n: nat)
    requires IndicesBelow(m, n) && InBounds(m, c)
    ensures Below(Bucket(m, c), n)
  {
    var b := Bucket(m, c);
    forall i | 0 <= i < |b|
      ensures b[i] < n
    {
      assert b[i] in m.data[c.row][c.col];
    }
  }

  lemma {:induction false} GatherBelow(m: Matrix, c: Cell, n: nat)
    requires IndicesBelow(m, n) && InBounds(m, c)
    ensures Below(Gather(m, c), n)
  {
    ConcatBelow(m, Block(m, c), n);
  }

  /** Every index in concatenated buckets belongs to a boid in one of those cells. */
  lemma {:induction false} ConcatMembers(m: Matrix, ps: seq<Vector>, cells: seq<Cell>, k: nat)
    requires Populated(m, ps)
    requires forall d :: d in cells ==> InBounds(m, d)
    requires k in Concat(m, cells)
    ensures k < |ps| && CellOf(ps[k]) in cells
  {
    if k in Bucket(m, cells[0]) {
      assert k in Members(ps, cells[0]);
    } else {
      ConcatMembers(m, ps, cells[1..], k);
    }
  }

  /** Over distinct cells, concatenated buckets hold each boid of those cells
      exactly once and no other boid. */
  lemma {:induction false} ConcatCount(m: Matrix, ps: seq<Vector>, cells: seq<Cell>, k: nat)
    requires Populated(m, ps)
    requires forall d :: d in cells ==> InBounds(m, d)
    requires forall a, b :: 0 <= a < b < |cells| ==> cells[a] != cells[b]
    ensures multiset(Concat(m, cells))[k] == if k < |ps| && CellOf(ps[k]) in cells then 1 else 0
  {
    if |cells| > 0 {
      var c0, rest := cells[0], cells[1..];
      assert forall d :: d in cells <==> d == c0 || d in rest;
      assert forall a, b :: 0 <= a < b < |rest| ==> rest[a] != rest[b] by {
        forall a, b | 0 <= a < b < |rest|
          ensures rest[a] != rest[b]
        {
          assert rest[a] == cells[a + 1] && rest[b] == cells[b + 1];
        }
      }
      ConcatCount(m, ps, rest, k);
      MembersCount(ps, c0, k);
      assert c0 == Cell(c0.row, c0.col);
      assert InBounds(m, c0);
      assert Bucket(m, c0) == Members(ps, c0);
      assert Concat(m, cells) == Bucket(m, c0) + Concat(m, rest);
      assert Concat(m, cells) == Members(ps, c0) + Concat(m, rest);
      assert multiset(Concat(m, cells))[k] == multiset(Members(ps, c0))[k] + multiset(Concat(m, rest))[k];
    }
  }

  /** Around an interior cell no index wraps, and the block is the plain 3×3
      neighbourhood. */
  lemma {:induction false} InteriorBlock(m: Matrix, c: Cell)
    requires m.rows == Rows && m.cols == Cols
    requires Interior(c)
    ensures InBounds(m, c)
    ensures Block(m, c) ==
      [Cell(c.row, c.col), Cell(c.row + 1, c.col + 1), Cell(c.row + 1, c.col),
       Cell(c.row + 1, c.col - 1), Cell(c.row, c.col - 1), Cell(c.row - 1, c.col - 1),
       Cell(c.row - 1, c.col), Cell(c.row - 1, c.col + 1), Cell(c.row, c.col + 1)]
  {
  }

  /** An interior cell's block is exactly the cells adjacent to it, each once. */
  lemma {:induction false} InteriorBlockAdjacent(m: Matrix, c: Cell)
    requires m.rows == Rows && m.cols == Cols
    requires Interior(c)
    ensures InBounds(m, c)
    ensures forall d :: d in Block(m, c) <==> Adjacent(d, c)
    ensures forall a, b :: 0 <= a < b < |Block(m, c)| ==> Block(m, c)[a] != Block(m, c)[b]
  {
    InteriorBlock(m, c);
    forall d | Adjacent(d, c)
      ensures d in Block(m, c)
    {
      var b := Block(m, c);
      if d.row == c.row - 1 {
        assert d == b[5] || d == b[6] || d == b[7];
      } else if d.row == c.row {
        assert d == b[4] || d == b[0] || d == b[8];
      } else {
        assert d == b[3] || d == b[2] || d == b[1];
      }
    }
  }

  /** A cell of a block that lies inside the grid's margin touches the centre
      cell without wrapping. */
  lemma {:induction false} BlockAdjacent(m: Matrix, c: Cell, d: Cell)
    requires m.rows == Rows && m.cols == Cols
    requires InBounds(m, c)
    requires d in Block(m, c) && Interior(d)
    ensures Adjacent(d, c)
  {
  }

  /** The wrap-around never brings in a boid from the far side of the arena:
      every gathered boid sits in a bucket that touches `c` without wrapping. */
  lemma {:induction false} NoSeamLeak(m: Matrix, ps: seq<Vector>, c: Cell, k: nat)
    requires Populated(m, ps) && AllInArena(ps)
    requires InBounds(m, c)
    requires k in Gather(m, c)
    ensures k < |ps| && Adjacent(CellOf(ps[k]), c)
  {
    ConcatMembers(m, ps, Block(m, c), k);
    ArenaCellInterior(ps[k]);
    BlockAdjacent(m, c, CellOf(ps[k]));
  }

  /** Around an interior cell the gathered list holds exactly the boids of the
      unwrapped 3×3 block, each exactly once. */
  lemma {:induction false} GatherCount(m: Matrix, ps: seq<Vector>, c: Cell, k: nat)
    requires Populated(m, ps)
    requires Interior(c)
    ensures InBounds(m, c)
    ensures multiset(Gather(m, c))[k] == if k < |ps| && Adjacent(CellOf(ps[k]), c) then 1 else 0
  {
    InteriorBlockAdjacent(m, c);
    ConcatCount(m, ps, Block(m, c), k);
  }

  /** Every boid within vision distance of a boid is among that boid's gathered
      candidates. */
  lemma {:induction false} NeighbourCompleteness(m: Matrix, ps: seq<Vector>, b: nat, k: nat)
    requires Populated(m, ps) && AllInArena(ps)
    requires b < |ps| && k < |ps|
    requires DistSq(ps[b], ps[k]) < Sq(VisionRadius)
    ensures InBounds(m, CellOf(ps[b]))
    ensures k in Gather(m, CellOf(ps[b]))
  {
    var c := CellOf(ps[b]);
    ArenaCellInterior(ps[b]);
    DistSqSymmetric(ps[b], ps[k]);
    WithinVisionAdjacent(ps[k], ps[b]);
    GatherCount(m, ps, c, k);
  }

  /** The cell visited `n`-th by the row-major sweep over a `Rows × Cols` grid. */
  function RowMajor(n: nat): Cell {
    Cell(n / Cols, n % Cols)
  }

  /** The position of cell `c` in row-major order. */
  function Rank(c: Cell): int {
    c.row * Cols + c.col
  }

  lemma {:induction false} RankBounds(c: Cell)
    requires 0 <= c.row < Rows && 0 <= c.col < Cols
    ensures 0 <= Rank(c) < Rows * Cols
  {
    GridSize();
  }

  /** `RowMajor` and `Rank` are inverse on the grid's columns. */
  lemma {:induction false} RowMajorRank(c: Cell, n: nat)
    requires 0 <= c.col < Cols
    ensures c == RowMajor(n) <==> Rank(c) == n
  {
    GridSize();
  }

  lemma {:induction false} RowMajorInBounds(n: nat)
    requires n < Rows * Cols
    ensures 0 <= RowMajor(n).row < Rows && 0 <= RowMajor(n).col < Cols
  {
    GridSize();
  }

  /** The boids of the first `n` cells, in the order the sweep visits them. */
  function Flatten(m: Matrix, n: nat): seq<nat>
    requires WellShaped(m) && m.rows == Rows && m.cols == Cols
    requires n <= Rows * Cols
  {
    if n == 0 then [] else RowMajorInBounds(n - 1); Flatten(m, n - 1) + Bucket(m, RowMajor(n - 1))
  }

  lemma {:induction false} FlattenBelow(m: Matrix, n: nat, size: nat)
    requires IndicesBelow(m, size) && m.rows == Rows && m.cols == Cols
    requires n <= Rows * Cols
    ensures Below(Flatten(m, n), size)
  {
    if n > 0 {
      RowMajorInBounds(n - 1);
      FlattenBelow(m, n - 1, size);
      BucketBelow(m, RowMajor(n - 1), size);
    }
  }

  /** A cell whose bucket exists in a `Rows × Cols` grid. */
  predicate InGrid(c: Cell) {
    0 <= c.row < Rows && 0 <= c.col < Cols
  }

  /** Every position maps to a bucket that exists in a `Rows × Cols` grid. */
  predicate AllInGrid(ps: seq<Vector>) {
    forall k :: 0 <= k < |ps| ==> InGrid(CellOf(ps[k]))
  }

  lemma {:induction false} ArenaInGrid(ps: seq<Vector>)
    requires AllInArena(ps)
    ensures AllInGrid(ps)
  {
    forall k | 0 <= k < |ps|
      ensures InGrid(CellOf(ps[k]))
    {
      ArenaCellInterior(ps[k]);
    }
  }

  /** Extending the sweep by one cell adds that cell's boids. */
  lemma {:induction false} FlattenStep(m: Matrix, ps: seq<Vector>, n: nat, k: nat)
    requires Populated(m, ps)
    requires 0 < n <= Rows * Cols
    ensures multiset(Flatten(m, n))[k] ==
      multiset(Flatten(m, n - 1))[k] + (if k < |ps| && CellOf(ps[k]) == RowMajor(n - 1) then 1 else 0)
  {
    var c := RowMajor(n - 1);
    RowMajorInBounds(n - 1);
    assert Bucket(m, c) == Members(ps, c);
    MembersCount(ps, c, k);
  }

  /** The counting step of `FlattenCount`, apart from the grid: one more
      cell in row-major order adds the boid exactly when the boid lies in it. */
  lemma {:induction false} FlattenCountStep(before: int, after: int, n: nat, d: Cell, here: bool)
    requires 0 < n
    requires InGrid(d)
    requires before == if Rank(d) < n - 1 then 1 else 0
    requires after == before + (if here then 1 else 0)
    requires here <==> d == RowMajor(n - 1)
    ensures after == if Rank(d) < n then 1 else 0
  {
    RowMajorRank(d, n - 1);
  }

  lemma {:induction false} FlattenCount(m: Matrix, ps: seq<Vector>, n: nat, k: nat)
    requires Populated(m, ps) && AllInGrid(ps)
    requires n <= Rows * Cols
    ensures multiset(Flatten(m, n))[k] == if k < |ps| && Rank(CellOf(ps[k])) < n then 1 else 0
  {
    if n > 0 {
      FlattenCount(m, ps, n - 1, k);
      FlattenStep(m, ps, n, k);
      if k < |ps| {
        var d := CellOf(ps[k]);
        FlattenCountStep(multiset(Flatten(m, n - 1))[k], multiset(Flatten(m, n))[k], n, d, d == RowMajor(n - 1));
      }
    } else if k < |ps| {
      var d := CellOf(ps[k]);
      assert InGrid(d);
      RankBounds(d);
    }
  }

  /** `0, 1, …, n-1`. */
  function Range(n: nat): (r: seq<nat>)
    ensures |r| == n && forall i :: 0 <= i < n ==> r[i] == i
  {
    if n == 0 then [] else Range(n - 1) + [n - 1]
  }

  lemma {:induction false} RangeBelow(n: nat)
    ensures Below(Range(n), n)
  {
  }

  lemma {:induction false} RangeCount(n: nat, k: nat)
    ensures multiset(Range(n))[k] == if k < n then 1 else 0
  {
    if n > 0 {
      RangeCount(n - 1, k);
    }
  }

  /** The row-major sweep over the whole grid meets every boid exactly once:
      the concatenated buckets are a permutation of `0 .. |ps|-1`. */
  lemma {:induction false} SweepOrderIsPermutation(m: Matrix, ps: seq<Vector>)
    requires Populated(m, ps) && AllInGrid(ps)
    ensures Rows * Cols == 1479
    ensures multiset(Flatten(m, Rows * Cols)) == multiset(Range(|ps|))
    ensures |Flatten(m, Rows * Cols)| == |ps|
  {
    GridSize();
    forall k: nat
      ensures multiset(Flatten(m, Rows * Cols))[k] == multiset(Range(|ps|))[k]
    {
      FlattenCount(m, ps, Rows * Cols, k);
      if k < |ps| {
        RankBounds(CellOf(ps[k]));
      }
      RangeCount(|ps|, k);
    }
    assert multiset(Flatten(m, Rows * Cols)) == multiset(Range(|ps|));
    assert |multiset(Flatten(m, Rows * Cols))| == |multiset(Range(|ps|))|;
  }
}
