/** The flat, row-major images that assets/brand/trace.py works on. */
module Raster {

  /** A cell of a mask: `bytearray` cells that only ever hold 0 or 1. */
  type Bit = b: nat | b <= 1

  /** A pixel, or a corner of the pixel grid. */
  datatype Point = Point(x: int, y: int)

  predicate InGrid(w: nat, h: nat, p: Point) {
    0 <= p.x < w && 0 <= p.y < h
  }

  /** Where row `y` of a row-major buffer starts: `y * w`, built up row by row. */
  function RowStart(w: nat, y: nat): nat {
    if y == 0 then 0 else RowStart(w, y - 1) + w
  }

  lemma {:induction false} RowStartIsProduct(w: nat, y: nat)
    ensures RowStart(w, y) == y * w
  {
    if y > 0 {
      RowStartIsProduct(w, y - 1);
    }
  }

  /** How many cells a `w` by `h` buffer has: `w * h`. */
  function Area(w: nat, h: nat): nat {
    RowStart(w, h)
  }

  lemma {:induction false} RowsDoNotOverlap(w: nat, y: nat, z: nat)
    requires y < z
    ensures RowStart(w, y) + w <= RowStart(w, z)
  {
    if y + 1 < z {
      RowsDoNotOverlap(w, y, z - 1);
    }
  }

  /** Where pixel `p` sits in that buffer. */
  function Index(w: nat, p: Point): int
    requires p.y >= 0
  {
    RowStart(w, p.y) + p.x
  }

  ghost function Cells(w: nat, h: nat): set<Point> {
    set x, y | 0 <= x < w && 0 <= y < h :: Point(x, y)
  }

  lemma IndexInRange(w: nat, h: nat, p: Point)
    requires InGrid(w, h, p)
    ensures 0 <= Index(w, p) < Area(w, h)
  {
    RowsDoNotOverlap(w, p.y, h);
  }

  /** Row-major indexing never sends two pixels of the image to one cell. */
  lemma IndexInjective(w: nat, h: nat, p: Point, q: Point)
    requires InGrid(w, h, p) && InGrid(w, h, q) && p != q
    ensures Index(w, p) != Index(w, q)
  {
    if p.y < q.y {
      RowsDoNotOverlap(w, p.y, q.y);
    } else if q.y < p.y {
      RowsDoNotOverlap(w, q.y, p.y);
    }
  }

  /** The cell of pixel `p`. */
  function At<T>(cells: seq<T>, w: nat, h: nat, p: Point): T
    requires |cells| == Area(w, h) && InGrid(w, h, p)
  {
    IndexInRange(w, h, p);
    cells[Index(w, p)]
  }

  lemma AtUpdate<T>(cells: seq<T>, w: nat, h: nat, p: Point, v: T, q: Point)
    requires |cells| == Area(w, h) && InGrid(w, h, p) && InGrid(w, h, q)
    ensures 0 <= Index(w, p) < |cells|
    ensures At(cells[Index(w, p) := v], w, h, q) == if p == q then v else At(cells, w, h, q)
  {
    IndexInRange(w, h, p);
    IndexInRange(w, h, q);
    if p != q {
      IndexInjective(w, h, p, q);
    }
  }
}
