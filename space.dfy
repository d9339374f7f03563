/**
 * The toroidal spatial grid the agents live on (the mesa `Grid(width, height, torus=True)`
 * service), specified by the cells it yields rather than by its implementation.
 */
module Space {

  import opened Wrappers

  /** A grid coordinate `(x, y)`. */
  datatype Cell = Cell(x: int, y: int)

  predicate InBounds(c: Cell, width: nat, height: nat)
  {
    0 <= c.x < width && 0 <= c.y < height
  }

  /** `a` comes before `b` in the x-major order of `coord_iter`. */
  predicate Before(a: Cell, b: Cell)
  {
    a.x < b.x || (a.x == b.x && a.y < b.y)
  }

  /** The cells of `s` come in strictly increasing x-major order. */
  predicate Ordered(s: seq<Cell>)
  {
    forall i, j :: 0 <= i < j < |s| ==> Before(s[i], s[j])
  }

  /** The cells of column `x`, from `y = 0` upwards. */
  function Column(x: nat, height: nat): (s: seq<Cell>)
    ensures |s| == height
    ensures forall c: Cell :: c in s <==> c.x == x && 0 <= c.y < height
    ensures Ordered(s)
  {
    var s := seq(height, y requires 0 <= y < height => Cell(x, y));
    assert forall c: Cell :: c in s ==> c.x == x && 0 <= c.y < height;
    assert forall c: Cell :: c.x == x && 0 <= c.y < height ==> s[c.y] == c;
    s
  }

  /** Every cell of the grid, in the order mesa's `coord_iter` visits them (x-major). */
  function AllCells(width: nat, height: nat): (s: seq<Cell>)
    ensures |s| == width * height
    ensures forall c: Cell :: c in s <==> InBounds(c, width, height)
  {
    if width == 0 then []
    else
      var left := AllCells(width - 1, height);
      var col := Column(width - 1, height);
      assert |left + col| == (width - 1) * height + height == width * height;
      left + col
  }

  /** `coord_iter` visits the cells in strictly increasing x-major order. */
  lemma {:induction false} AllCellsOrdered(width: nat, height: nat)
    ensures Ordered(AllCells(width, height))
  {
    if width > 0 {
      var left := AllCells(width - 1, height);
      var col := Column(width - 1, height);
      var s := AllCells(width, height);
      assert s == left + col;
      AllCellsOrdered(width - 1, height);
      forall i, j | 0 <= i < j < |s| ensures Before(s[i], s[j]) {
        if j < |left| {
          assert s[i] == left[i] && s[j] == left[j];
        } else if i >= |left| {
          assert s[i] == col[i - |left|] && s[j] == col[j - |left|];
        } else {
          assert s[i] in left && s[j] in col;
        }
      }
    }
  }

  /**
   * Whether some offset `d` with `-r <= d <= r` takes coordinate `a` to coordinate `b`
   * on a ring of `n` positions (toroidal wrap-around).
   */
  predicate RingReach(a: int, b: int, r: nat, n: nat)
    requires n > 0
  {
    var d := (b - a) % n;
    d <= r || n - d <= r
  }

  /**
   * Whether `c` is in the Moore neighbourhood of radius `r` around `p` on the torus:
   * reachable within `r` steps on each axis, the centre itself excluded.
   */
  predicate InMoore(p: Cell, r: nat, width: nat, height: nat, c: Cell)
  {
    width > 0 && height > 0 && c != p &&
    RingReach(p.x, c.x, r, width) && RingReach(p.y, c.y, r, height)
  }

  /** The cells of `s` that lie in the Moore neighbourhood of `p`, in the order of `s`. */
  function MooreFilter(s: seq<Cell>, p: Cell, r: nat, width: nat, height: nat): (t: seq<Cell>)
    ensures forall c: Cell :: c in t <==> c in s && InMoore(p, r, width, height, c)
  {
    if s == [] then []
    else
      var last := s[|s| - 1];
      var t0 := MooreFilter(s[..|s| - 1], p, r, width, height);
      assert s == s[..|s| - 1] + [last];
      if InMoore(p, r, width, height, last) then t0 + [last] else t0
  }

  /** `get_neighborhood(pos, moore=True, radius=r)`: the neighbouring cells of `p`, each once. */
  function Neighbourhood(p: Cell, r: nat, width: nat, height: nat): (t: seq<Cell>)
    ensures forall c: Cell :: c in t <==> InBounds(c, width, height) && InMoore(p, r, width, height, c)
    ensures p !in t
  {
    MooreFilter(AllCells(width, height), p, r, width, height)
  }

  /** `get_cell_list_contents(cells)`: the agent ids found in `cells`, in the order of `cells`. */
  function Occupants(grid: map<Cell, nat>, cells: seq<Cell>): (ids: seq<nat>)
    ensures |ids| <= |cells|
    ensures forall j :: j in ids ==> exists c :: c in cells && c in grid && grid[c] == j
    ensures forall c :: c in cells && c in grid ==> grid[c] in ids
  {
    if cells == [] then []
    else
      var last := cells[|cells| - 1];
      var ids0 := Occupants(grid, cells[..|cells| - 1]);
      assert forall c: Cell :: c in cells[..|cells| - 1] ==> c in cells;
      if last in grid then ids0 + [grid[last]] else ids0
  }

  /** `[c for c in cells if grid.is_cell_empty(c)]`: the empty cells among `cells`, in order. */
  function EmptyCells(grid: map<Cell, nat>, cells: seq<Cell>): (t: seq<Cell>)
    ensures forall c: Cell :: c in t <==> c in cells && c !in grid
  {
    if cells == [] then []
    else
      var last := cells[|cells| - 1];
      var t0 := EmptyCells(grid, cells[..|cells| - 1]);
      assert cells == cells[..|cells| - 1] + [last];
      if last !in grid then t0 + [last] else t0
  }

  /**
   * `random.choice(cells)` when moving is enabled and `cells` is non-empty; the random index
   * is the oracle value `k`, reduced to the list's length.
   */
  function Pick(movement: bool, cells: seq<Cell>, k: nat): (target: Option<Cell>)
    ensures target.Some? <==> movement && |cells| > 0
    ensures target.Some? ==> target.value in cells
  {
    if movement && |cells| > 0 then Some(cells[k % |cells|]) else None
  }
}
