/** The 64-pixel tile grid over a frame (host/encoder.cpp:66-78): every pixel lies in
    exactly one tile, and writing one tile leaves the rows of all others alone. */
module TileGrid {
  import opened Bytes
  import opened Arith
  import opened TileFormat

  type Dim = n: nat | 0 < n witness 1

  datatype Grid = Grid(width: Dim, height: Dim)

  function Across(n: Dim): (t: Dim)
    ensures TILE * (t - 1) < n <= TILE * t
  {
    (n + TILE - 1) / TILE
  }

  function Total(g: Grid): nat {
    Across(g.width) * Across(g.height)
  }

  function Tx(g: Grid, k: nat): nat {
    k % Across(g.width) * TILE
  }

  function Ty(g: Grid, k: nat): nat {
    k / Across(g.width) * TILE
  }

  function Tw(g: Grid, k: nat): int {
    Min(TILE, g.width - Tx(g, k))
  }

  function Th(g: Grid, k: nat): int {
    Min(TILE, g.height - Ty(g, k))
  }

  /** Tiles lie inside the frame and are at most 64 by 64. */
  lemma TileInside(g: Grid, k: nat)
    requires k < Total(g)
    ensures 0 < Tw(g, k) <= TILE && Tx(g, k) + Tw(g, k) <= g.width
    ensures 0 < Th(g, k) <= TILE && Ty(g, k) + Th(g, k) <= g.height
  {
    var a, b := Across(g.width), Across(g.height);
    var q := k / a;
    assert q < b by {
      if q >= b { MulMono(a, b, q); }
    }
  }

  predicate Covers(g: Grid, k: nat, x: nat, y: nat) {
    Tx(g, k) <= x < Tx(g, k) + Tw(g, k) && Ty(g, k) <= y < Ty(g, k) + Th(g, k)
  }

  function TileAt(g: Grid, x: nat, y: nat): nat {
    y / TILE * Across(g.width) + x / TILE
  }

  lemma TileAtInside(g: Grid, x: nat, y: nat)
    requires x < g.width && y < g.height
    ensures TileAt(g, x, y) < Total(g)
  {
    var a, b := Across(g.width), Across(g.height);
    MulMono(a, y / TILE + 1, b);
    MulDist(a, y / TILE, 1);
  }

  /** The tile rectangles partition the frame. */
  lemma Partition(g: Grid, x: nat, y: nat, k: nat)
    requires x < g.width && y < g.height && k < Total(g)
    ensures TileAt(g, x, y) < Total(g)
    ensures Covers(g, k, x, y) <==> k == TileAt(g, x, y)
  {
    var a, b := Across(g.width), Across(g.height);
    var i, j := x / TILE, y / TILE;
    assert i < a && j < b;
    MulMono(a, j + 1, b);
    MulDist(a, j, 1);
    var t := TileAt(g, x, y);
    assert t == a * j + i;
    DivUnique(t, a, j, i);
    TileInside(g, k);
    if Covers(g, k, x, y) {
      assert k % a == i && k / a == j;
      assert k == a * j + i;
    }
  }

  // -------------------------------------------------------------------- rows

  /** A rectangle of a flat image: `n` cells from column `x` of `h` rows from row `y`. */
  function At(stride: nat, y: nat): nat {
    y * stride
  }

  function Row<T>(s: seq<T>, stride: nat, x: nat, n: nat, y: nat): (r: seq<T>)
    requires At(stride, y) + x + n <= |s|
    ensures |r| == n
  {
    s[At(stride, y) + x..At(stride, y) + x + n]
  }

  /** Two stretches in different rows, or of disjoint columns, do not overlap. */
  lemma RowsApart(stride: nat, x: nat, n: nat, y: nat, x': nat, n': nat, y': nat)
    requires x + n <= stride && x' + n' <= stride
    requires y != y' || x + n <= x' || x' + n' <= x
    ensures At(stride, y) + x + n <= At(stride, y') + x' || At(stride, y') + x' + n' <= At(stride, y) + x
  {
    if y < y' {
      MulMono(stride, y + 1, y');
      MulDist(stride, y, 1);
    } else if y' < y {
      MulMono(stride, y' + 1, y);
      MulDist(stride, y', 1);
    }
  }

  /** An image with `unit` cells a pixel holds every row of every tile. */
  ghost predicate Holds(g: Grid, size: nat, stride: nat, unit: Dim) {
    unit * g.width <= stride && At(stride, g.height - 1) + unit * g.width <= size
  }

  /** Where a tile's rows start, and how many cells they have. */
  function Left(g: Grid, unit: Dim, k: nat): nat {
    unit * Tx(g, k)
  }

  function Wide(g: Grid, unit: Dim, k: nat): int {
    unit * Tw(g, k)
  }

  lemma Columns(g: Grid, unit: Dim, k: nat)
    requires k < Total(g)
    ensures 0 < Wide(g, unit, k) && Left(g, unit, k) + Wide(g, unit, k) <= unit * g.width
  {
    hide Tx, Tw;
    TileInside(g, k);
    MulDist(unit, Tx(g, k), Tw(g, k));
    MulMono(unit, Tx(g, k) + Tw(g, k), g.width);
    MulMono(unit, 1, Tw(g, k));
  }

  lemma TileRow(g: Grid, size: nat, stride: nat, unit: Dim, k: nat, j: nat)
    requires Holds(g, size, stride, unit) && k < Total(g) && j < Th(g, k)
    ensures 0 < Wide(g, unit, k) && Left(g, unit, k) + Wide(g, unit, k) <= stride
    ensures At(stride, Ty(g, k) + j) + Left(g, unit, k) + Wide(g, unit, k) <= size
  {
    hide Tx, Ty, Tw, Th, Left, Wide;
    TileInside(g, k);
    Columns(g, unit, k);
    MulMono(stride, Ty(g, k) + j, g.height - 1);
  }

  /** Row `j` of tile `k`. */
  function TileRowOf<T>(g: Grid, s: seq<T>, stride: nat, unit: Dim, k: nat, j: nat): (r: seq<T>)
    requires Holds(g, |s|, stride, unit) && k < Total(g) && j < Th(g, k)
    ensures |r| == Wide(g, unit, k)
  {
    TileRow(g, |s|, stride, unit, k, j);
    Row(s, stride, Left(g, unit, k), Wide(g, unit, k), Ty(g, k) + j)
  }

  /** The rows of tile `k`. */
  function Rows<T>(g: Grid, s: seq<T>, stride: nat, unit: Dim, k: nat): (rows: seq<seq<T>>)
    requires Holds(g, |s|, stride, unit) && k < Total(g)
    ensures |rows| == Th(g, k)
  {
    hide *;
    TileInside(g, k);
    seq(Th(g, k), j requires 0 <= j < Th(g, k) => TileRowOf(g, s, stride, unit, k, j))
  }

  /** The stretch of a flat image one row of a tile occupies. */
  predicate InRow(g: Grid, stride: nat, unit: Dim, k: nat, j: nat, i: int) {
    var start := At(stride, Ty(g, k) + j) + Left(g, unit, k);
    start <= i < start + Wide(g, unit, k)
  }

  lemma TilesApart(g: Grid, stride: nat, unit: Dim, k: nat, j: nat, k': nat, j': nat, i: int)
    requires unit * g.width <= stride && k < Total(g) && k' < Total(g) && j < Th(g, k) && j' < Th(g, k')
    requires InRow(g, stride, unit, k, j, i) && InRow(g, stride, unit, k', j', i)
    ensures k == k' && j == j'
  {
    hide Tx, Ty, Tw, Th, At, TileAt, Total, Left, Wide;
    TileInside(g, k);
    TileInside(g, k');
    Columns(g, unit, k);
    Columns(g, unit, k');
    var y, y' := Ty(g, k) + j, Ty(g, k') + j';
    ColumnsApart(g, unit, k, k');
    if y != y' || Tx(g, k) + Tw(g, k) <= Tx(g, k') || Tx(g, k') + Tw(g, k') <= Tx(g, k) {
      RowsApart(stride, Left(g, unit, k), Wide(g, unit, k), y, Left(g, unit, k'), Wide(g, unit, k'), y');
    } else {
      var x := Max(Tx(g, k), Tx(g, k'));
      Partition(g, x, y, k);
      Partition(g, x, y, k');
    }
  }

  lemma ColumnsApart(g: Grid, unit: Dim, k: nat, k': nat)
    ensures Tx(g, k) + Tw(g, k) <= Tx(g, k') ==> Left(g, unit, k) + Wide(g, unit, k) <= Left(g, unit, k')
    ensures Tx(g, k') + Tw(g, k') <= Tx(g, k) ==> Left(g, unit, k') + Wide(g, unit, k') <= Left(g, unit, k)
  {
    hide Tx, Tw;
    MulDist(unit, Tx(g, k), Tw(g, k));
    MulDist(unit, Tx(g, k'), Tw(g, k'));
    if Tx(g, k) + Tw(g, k) <= Tx(g, k') { MulMono(unit, Tx(g, k) + Tw(g, k), Tx(g, k')); }
    if Tx(g, k') + Tw(g, k') <= Tx(g, k) { MulMono(unit, Tx(g, k') + Tw(g, k'), Tx(g, k)); }
  }
}
