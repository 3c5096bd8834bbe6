/** The two-layer routing grid of skill/vfp_layout_route.il: cells, the computed
    table index, and who owns a cell. Layer 0 is M1, layer 1 is M2. */
module Grid {
  datatype Cell = Cell(l: int, c: int, r: int)

  /** What the occupancy table says about a cell. */
  datatype Owner = Free | Net(name: string) | Obs

  /** The part of the grid structure that routing reads. */
  datatype Board = Board(nc: int, nr: int, occ: map<int, Owner>)

  function Gidx(b: Board, x: Cell): int {
    (x.l * b.nc + x.c) * b.nr + x.r
  }

  /** The source's bounds test looks at the column and the row only. */
  predicate In(b: Board, x: Cell) {
    0 <= x.c < b.nc && 0 <= x.r < b.nr
  }

  predicate OnBoard(b: Board, x: Cell) {
    0 <= x.l <= 1 && In(b, x)
  }

  /** A key missing from the table reads as nil, a free cell. */
  function At(b: Board, x: Cell): Owner {
    if Gidx(b, x) in b.occ then b.occ[Gidx(b, x)] else Free
  }

  predicate Passable(b: Board, x: Cell, net: string) {
    At(b, x) == Free || At(b, x) == Net(net)
  }

  function Put(b: Board, x: Cell, v: Owner): Board {
    b.(occ := b.occ[Gidx(b, x) := v])
  }

  lemma MultipleAtLeast(k: int, m: int)
    requires k >= 1 && m >= 1
    ensures k * m >= m
  {
    assert k * m == m + (k - 1) * m;
  }

  lemma DigitsOrdered(m: int, q: int, r: int, q': int, r': int)
    requires 0 <= r < m && 0 <= r' < m && q < q'
    ensures q * m + r < q' * m + r'
  {
    MultipleAtLeast(q' - q, m);
    assert q' * m == q * m + (q' - q) * m;
  }

  /** Positional notation: the pair (q, r) is recovered from q * m + r. */
  lemma DigitsUnique(m: int, q: int, r: int, q': int, r': int)
    requires 0 <= r < m && 0 <= r' < m
    requires q * m + r == q' * m + r'
    ensures q == q' && r == r'
  {
    if q < q' {
      DigitsOrdered(m, q, r, q', r');
    } else if q' < q {
      DigitsOrdered(m, q', r', q, r);
    }
  }

  /** The table index identifies a cell of the grid. */
  lemma GidxInjective(b: Board, x: Cell, y: Cell)
    requires OnBoard(b, x) && OnBoard(b, y)
    ensures Gidx(b, x) == Gidx(b, y) <==> x == y
  {
    if Gidx(b, x) == Gidx(b, y) {
      DigitsUnique(b.nr, x.l * b.nc + x.c, x.r, y.l * b.nc + y.c, y.r);
      DigitsUnique(b.nc, x.l, x.c, y.l, y.c);
    }
  }

  /** Writing one cell changes no other. */
  lemma PutAt(b: Board, x: Cell, v: Owner, y: Cell)
    requires OnBoard(b, x) && OnBoard(b, y)
    ensures At(Put(b, x, v), y) == if x == y then v else At(b, y)
  {
    GidxInjective(b, x, y);
  }

  /** Indices of grid cells stay below twice the number of cells of a layer. */
  lemma GidxRange(b: Board, x: Cell)
    requires OnBoard(b, x)
    ensures 0 <= Gidx(b, x) < 2 * b.nc * b.nr
  {
    var q := x.l * b.nc + x.c;
    assert 0 <= q < 2 * b.nc by {
      if x.l == 0 {
        assert q == x.c;
      } else {
        assert q == b.nc + x.c;
      }
    }
    DigitsOrdered(b.nr, q, x.r, 2 * b.nc, 0);
    if q > 0 {
      MultipleAtLeast(q, b.nr);
    }
  }

  /** Every index in that range is the index of a grid cell. */
  lemma GidxOnto(b: Board, k: int) returns (x: Cell)
    requires b.nc > 0 && b.nr > 0 && 0 <= k < 2 * b.nc * b.nr
    ensures OnBoard(b, x) && Gidx(b, x) == k
  {
    var q, r := k / b.nr, k % b.nr;
    assert k == q * b.nr + r;
    assert 0 <= q < 2 * b.nc by {
      if q > 2 * b.nc {
        DigitsOrdered(b.nr, 2 * b.nc, 0, q, r);
      }
      if q < 0 {
        DigitsOrdered(b.nr, q, r, 0, 0);
      }
    }
    x := if q < b.nc then Cell(0, q, r) else Cell(1, q - b.nc, r);
  }

  /** One step of a wire: a neighbouring column or row, or a via. */
  predicate Adj(x: Cell, y: Cell) {
    || (x.l == y.l && x.r == y.r && (y.c == x.c + 1 || y.c == x.c - 1))
    || (x.l == y.l && x.c == y.c && (y.r == x.r + 1 || y.r == x.r - 1))
    || (y.l == 1 - x.l && x.c == y.c && x.r == y.r)
  }

  function Gap(a: int, b: int): nat {
    if a < b then b - a else a - b
  }

  /** On the two layers a step is a change of one coordinate by one. */
  lemma AdjIsUnitStep(x: Cell, y: Cell)
    requires 0 <= x.l <= 1 && 0 <= y.l <= 1
    ensures Adj(x, y) <==> Gap(x.l, y.l) + Gap(x.c, y.c) + Gap(x.r, y.r) == 1
  {
  }

  function Neighbours(x: Cell): (ns: seq<Cell>)
    ensures forall y :: y in ns <==> Adj(x, y)
  {
    [ Cell(x.l, x.c + 1, x.r), Cell(x.l, x.c - 1, x.r),
      Cell(x.l, x.c, x.r + 1), Cell(x.l, x.c, x.r - 1),
      Cell(1 - x.l, x.c, x.r) ]
  }

  /** A wire from one of `srcs` to `tgt` for `net`: on the grid, by single steps,
      through cells passable for the net; the first and last cell are exempt. */
  ghost predicate IsRoute(b: Board, srcs: seq<Cell>, tgt: Cell, net: string, p: seq<Cell>) {
    && |p| > 0
    && p[0] in srcs
    && p[|p| - 1] == tgt
    && (forall i :: 0 <= i < |p| ==> OnBoard(b, p[i]))
    && (forall i :: 0 <= i < |p| - 1 ==> Adj(p[i], p[i + 1]))
    && (forall i :: 0 < i < |p| - 1 ==> At(b, p[i]) == Free || At(b, p[i]) == Net(net))
  }
}
