/** The majority filter of assets/brand/trace.py, computed from one integral image. */
module SmoothMask {
  import opened Raster

  // ----- what the filter means ------------------------------------------------

  /** The pixels of the image within `r` of `p` in both directions. */
  ghost function Window(w: nat, h: nat, r: int, p: Point): set<Point> {
    set q | q in Cells(w, h) && p.x - r <= q.x <= p.x + r && p.y - r <= q.y <= p.y + r
  }

  ghost function LitIn(mask: seq<Bit>, w: nat, h: nat, area: set<Point>): set<Point>
    requires |mask| == Area(w, h)
  {
    set q | q in area && InGrid(w, h, q) && At(mask, w, h, q) == 1
  }

  /** More than half of the window around `p` is set. */
  ghost predicate Majority(mask: seq<Bit>, w: nat, h: nat, r: int, p: Point)
    requires |mask| == Area(w, h)
  {
    2 * |LitIn(mask, w, h, Window(w, h, r, p))| > |Window(w, h, r, p)|
  }

  /** The filter treats set and unset alike, except that a tie is unset: no pixel
      has a majority both in a mask and in the mask turned over. */
  lemma NeverBothWays(mask: seq<Bit>, turned: seq<Bit>, w: nat, h: nat, r: int, p: Point)
    requires |mask| == Area(w, h) == |turned|
    requires forall q :: InGrid(w, h, q) ==> At(turned, w, h, q) == 1 - At(mask, w, h, q)
    ensures var (lit, unlit) := (LitIn(mask, w, h, Window(w, h, r, p)), LitIn(turned, w, h, Window(w, h, r, p)));
            && lit + unlit == Window(w, h, r, p)
            && (Majority(mask, w, h, r, p) <==> |lit| > |unlit|)
            && !(Majority(mask, w, h, r, p) && Majority(turned, w, h, r, p))
  {
    var area := Window(w, h, r, p);
    var lit, unlit := LitIn(mask, w, h, area), LitIn(turned, w, h, area);
    assert lit + unlit == area && lit !! unlit;
    DisjointSize(lit, unlit);
  }

  /** Away from the border the window is the square of side 2r + 1 around the
      pixel. */
  lemma FullWindow(w: nat, h: nat, r: nat, p: Point)
    requires r <= p.x < w - r && r <= p.y < h - r
    ensures |Window(w, h, r, p)| == Area(2 * r + 1, 2 * r + 1)
    ensures forall q: Point :: q in Window(w, h, r, p) <==>
              q.x - p.x <= r && p.x - q.x <= r && q.y - p.y <= r && p.y - q.y <= r
  {
    RectSize(p.x - r, p.y - r, 2 * r + 1, 2 * r + 1);
    assert Window(w, h, r, p) == Rect(p.x - r, p.x - r + (2 * r + 1), p.y - r, p.y - r + (2 * r + 1));
  }

  // ----- the integral image ---------------------------------------------------

  ghost function RowSum(mask: seq<Bit>, w: nat, h: nat, y: nat, n: nat): nat
    requires |mask| == Area(w, h) && y < h && n <= w
  {
    if n == 0 then 0 else RowSum(mask, w, h, y, n - 1) + At(mask, w, h, Point(n - 1, y))
  }

  /** How many pixels are set left of column `x` and above row `y`. */
  ghost function Table(mask: seq<Bit>, w: nat, h: nat, x: nat, y: nat): nat
    requires |mask| == Area(w, h) && y <= h && x <= w
  {
    if y == 0 then 0 else Table(mask, w, h, x, y - 1) + RowSum(mask, w, h, y - 1, x)
  }

  ghost function Rect(x0: int, x1: int, y0: int, y1: int): set<Point> {
    set x, y | x0 <= x < x1 && y0 <= y < y1 :: Point(x, y)
  }

  lemma {:induction false} RowSumCounts(mask: seq<Bit>, w: nat, h: nat, y: nat, x0: nat, x1: nat)
    requires |mask| == Area(w, h) && y < h && x0 <= x1 <= w
    ensures RowSum(mask, w, h, y, x0) + |LitIn(mask, w, h, Rect(x0, x1, y, y + 1))| == RowSum(mask, w, h, y, x1)
  {
    if x0 == x1 {
      assert LitIn(mask, w, h, Rect(x0, x1, y, y + 1)) == {};
    } else {
      RowSumCounts(mask, w, h, y, x0, x1 - 1);
      OneMorePixel(mask, w, h, y, x0, x1);
    }
  }

  lemma OneMorePixel(mask: seq<Bit>, w: nat, h: nat, y: nat, x0: nat, x1: nat)
    requires |mask| == Area(w, h) && y < h && x0 < x1 <= w
    ensures |LitIn(mask, w, h, Rect(x0, x1, y, y + 1))|
            == |LitIn(mask, w, h, Rect(x0, x1 - 1, y, y + 1))| + At(mask, w, h, Point(x1 - 1, y))
  {
    var p := Point(x1 - 1, y);
    var lit, before := LitIn(mask, w, h, Rect(x0, x1, y, y + 1)), LitIn(mask, w, h, Rect(x0, x1 - 1, y, y + 1));
    if At(mask, w, h, p) == 1 {
      assert lit == before + {p};
      DisjointSize(before, {p});
    } else {
      assert lit == before;
    }
  }

  lemma TableOfMore(mask: seq<Bit>, w: nat, h: nat, x: nat, y: nat)
    requires |mask| == Area(w, h) && 0 < y <= h && x <= w
    ensures Table(mask, w, h, x, y) == Table(mask, w, h, x, y - 1) + RowSum(mask, w, h, y - 1, x)
  {
  }

  /** The four-corner difference of the table counts the set pixels of a rectangle. */
  lemma {:induction false} TableCounts(mask: seq<Bit>, w: nat, h: nat, x0: nat, x1: nat, y0: nat, y1: nat)
    requires |mask| == Area(w, h) && x0 <= x1 <= w && y0 <= y1 <= h
    ensures Table(mask, w, h, x1, y1) - Table(mask, w, h, x0, y1) - Table(mask, w, h, x1, y0)
            + Table(mask, w, h, x0, y0)
            == |LitIn(mask, w, h, Rect(x0, x1, y0, y1))|
  {
    if y0 == y1 {
      assert LitIn(mask, w, h, Rect(x0, x1, y0, y1)) == {};
    } else {
      TableCounts(mask, w, h, x0, x1, y0, y1 - 1);
      RowSumCounts(mask, w, h, y1 - 1, x0, x1);
      LastRow(mask, w, h, x0, x1, y0, y1);
      TableOfMore(mask, w, h, x0, y1);
      TableOfMore(mask, w, h, x1, y1);
    }
  }

  lemma LastRow(mask: seq<Bit>, w: nat, h: nat, x0: nat, x1: nat, y0: nat, y1: nat)
    requires |mask| == Area(w, h) && x0 <= x1 <= w && y0 < y1 <= h
    ensures |LitIn(mask, w, h, Rect(x0, x1, y0, y1))|
            == |LitIn(mask, w, h, Rect(x0, x1, y0, y1 - 1))| + |LitIn(mask, w, h, Rect(x0, x1, y1 - 1, y1))|
  {
    var above, row := LitIn(mask, w, h, Rect(x0, x1, y0, y1 - 1)), LitIn(mask, w, h, Rect(x0, x1, y1 - 1, y1));
    assert LitIn(mask, w, h, Rect(x0, x1, y0, y1)) == above + row;
    assert above !! row;
  }

  lemma {:induction false} RowSize(x: int, y: int, cols: nat)
    ensures |Rect(x, x + cols, y, y + 1)| == cols
  {
    if cols == 0 {
      assert Rect(x, x, y, y + 1) == {};
    } else {
      RowSize(x, y, cols - 1);
      assert Rect(x, x + cols, y, y + 1) == Rect(x, x + cols - 1, y, y + 1) + {Point(x + cols - 1, y)};
    }
  }

  lemma DisjointSize(a: set<Point>, b: set<Point>)
    requires a !! b
    ensures |a + b| == |a| + |b|
  {
  }

  lemma {:induction false} RectSize(x: int, y: int, cols: nat, rows: nat)
    ensures |Rect(x, x + cols, y, y + rows)| == Area(cols, rows)
  {
    if rows == 0 {
      assert Rect(x, x + cols, y, y) == {};
    } else {
      RectSize(x, y, cols, rows - 1);
      RowSize(x, y + rows - 1, cols);
      var above, row := Rect(x, x + cols, y, y + rows - 1), Rect(x, x + cols, y + rows - 1, y + rows);
      assert Rect(x, x + cols, y, y + rows) == above + row;
      DisjointSize(above, row);
    }
  }

  function Max(a: int, b: int): int { if a >= b then a else b }

  function Min(a: int, b: int): int { if a <= b then a else b }

  /** Clipping the window to the image is taking the rectangle the code takes. */
  lemma WindowIsRect(w: nat, h: nat, r: int, p: Point)
    requires r >= 0 && InGrid(w, h, p)
    ensures Window(w, h, r, p)
            == Rect(Max(0, p.x - r), Min(w - 1, p.x + r) + 1, Max(0, p.y - r), Min(h - 1, p.y + r) + 1)
  {
  }

  // ----- building the table ---------------------------------------------------

  /** The table has one more row and column than the image. */
  ghost function Entry(sat: seq<nat>, w: nat, h: nat, x: nat, y: nat): nat
    requires |sat| == Area(w + 1, h + 1) && x <= w && y <= h
  {
    At(sat, w + 1, h + 1, Point(x, y))
  }

  ghost predicate Stored(x: nat, y: nat, i: nat, j: nat) {
    i == 0 || j <= y || (j == y + 1 && i <= x)
  }

  /** Rows up to `y`, and row `y + 1` up to column `x`, hold their table entry. */
  ghost predicate Tabulated(sat: seq<nat>, mask: seq<Bit>, w: nat, h: nat, x: nat, y: nat)
    requires |mask| == Area(w, h)
  {
    && |sat| == Area(w + 1, h + 1)
    && forall i: nat, j: nat {:trigger Entry(sat, w, h, i, j)} ::
         i <= w && j <= h && Stored(x, y, i, j) ==> Entry(sat, w, h, i, j) == Table(mask, w, h, i, j)
  }

  lemma {:induction false} FirstColumn(mask: seq<Bit>, w: nat, h: nat, y: nat)
    requires |mask| == Area(w, h) && y <= h
    ensures Table(mask, w, h, 0, y) == 0
  {
    if y > 0 {
      FirstColumn(mask, w, h, y - 1);
    }
  }

  lemma NothingStored(sat: seq<nat>, mask: seq<Bit>, w: nat, h: nat)
    requires |mask| == Area(w, h) && |sat| == Area(w + 1, h + 1)
    requires forall i :: 0 <= i < |sat| ==> sat[i] == 0
    ensures Tabulated(sat, mask, w, h, 0, 0)
  {
    forall i: nat, j: nat | i <= w && j <= h && Stored(0, 0, i, j)
      ensures Entry(sat, w, h, i, j) == Table(mask, w, h, i, j)
    {
      IndexInRange(w + 1, h + 1, Point(i, j));
      if i == 0 {
        FirstColumn(mask, w, h, j);
      }
    }
  }

  lemma StoreOne(sat: seq<nat>, mask: seq<Bit>, w: nat, h: nat, x: nat, y: nat, k: int, sat': seq<nat>)
    requires |mask| == Area(w, h) && x < w && y < h
    requires Tabulated(sat, mask, w, h, x, y)
    requires k == Index(w + 1, Point(x + 1, y + 1)) && 0 <= k < |sat|
    requires sat' == sat[k := Table(mask, w, h, x + 1, y + 1)]
    ensures Tabulated(sat', mask, w, h, x + 1, y)
  {
    forall i: nat, j: nat | i <= w && j <= h && Stored(x + 1, y, i, j)
      ensures Entry(sat', w, h, i, j) == Table(mask, w, h, i, j)
    {
      AtUpdate(sat, w + 1, h + 1, Point(x + 1, y + 1), Table(mask, w, h, x + 1, y + 1), Point(i, j));
      if i != x + 1 || j != y + 1 {
        assert Stored(x, y, i, j) && Entry(sat, w, h, i, j) == Table(mask, w, h, i, j);
      }
    }
  }

  lemma RowDone(sat: seq<nat>, mask: seq<Bit>, w: nat, h: nat, y: nat)
    requires |mask| == Area(w, h) && Tabulated(sat, mask, w, h, w, y)
    ensures Tabulated(sat, mask, w, h, 0, y + 1)
  {
  }

  /** One table lookup, at an entry that is already stored. */
  method Lookup(sat: array<nat>, ghost mask: seq<Bit>, w: nat, h: nat, x: nat, y: nat, ghost sx: nat, ghost sy: nat)
    returns (entry: nat)
    requires |mask| == Area(w, h) && Tabulated(sat[..], mask, w, h, sx, sy)
    requires x <= w && y <= h && Stored(sx, sy, x, y)
    ensures entry == Table(mask, w, h, x, y)
  {
    IndexInRange(w + 1, h + 1, Point(x, y));
    entry := sat[Index(w + 1, Point(x, y))];
    assert entry == Entry(sat[..], w, h, x, y);
  }

  method BuildTable(mask: seq<Bit>, w: nat, h: nat) returns (sat: array<nat>)
    requires |mask| == Area(w, h)
    ensures Tabulated(sat[..], mask, w, h, 0, h)
  {
    sat := new nat[Area(w + 1, h + 1)](_ => 0);
    NothingStored(sat[..], mask, w, h);
    for y := 0 to h
      invariant Tabulated(sat[..], mask, w, h, 0, y)
    {
      var acc: nat := 0;
      for x := 0 to w
        invariant acc == RowSum(mask, w, h, y, x)
        invariant Tabulated(sat[..], mask, w, h, x, y)
      {
        acc := acc + At(mask, w, h, Point(x, y));
        var above := Lookup(sat, mask, w, h, x + 1, y, x, y);
        Store(sat, mask, w, h, x, y, above + acc);
      }
      RowDone(sat[..], mask, w, h, y);
    }
  }

  method Store(sat: array<nat>, ghost mask: seq<Bit>, w: nat, h: nat, x: nat, y: nat, entry: nat)
    requires |mask| == Area(w, h) && x < w && y < h
    requires Tabulated(sat[..], mask, w, h, x, y)
    requires entry == Table(mask, w, h, x + 1, y + 1)
    modifies sat
    ensures Tabulated(sat[..], mask, w, h, x + 1, y)
  {
    IndexInRange(w + 1, h + 1, Point(x + 1, y + 1));
    var k := Index(w + 1, Point(x + 1, y + 1));
    ghost var before := sat[..];
    sat[k] := entry;
    StoreOne(before, mask, w, h, x, y, k, sat[..]);
  }

  // ----- filtering ------------------------------------------------------------

  /** Four lookups count the set pixels of columns `x0..x1` and rows `y0..y1`. */
  method Total(sat: array<nat>, ghost mask: seq<Bit>, w: nat, h: nat, x0: nat, x1: nat, y0: nat, y1: nat)
    returns (total: int)
    requires |mask| == Area(w, h) && Tabulated(sat[..], mask, w, h, 0, h)
    requires x0 <= x1 < w && y0 <= y1 < h
    ensures total == |LitIn(mask, w, h, Rect(x0, x1 + 1, y0, y1 + 1))|
  {
    var a: int := Lookup(sat, mask, w, h, x1 + 1, y1 + 1, 0, h);
    var b: int := Lookup(sat, mask, w, h, x0, y1 + 1, 0, h);
    var c: int := Lookup(sat, mask, w, h, x1 + 1, y0, 0, h);
    var d: int := Lookup(sat, mask, w, h, x0, y0, 0, h);
    total := a - b - c + d;
    TableCounts(mask, w, h, x0, x1 + 1, y0, y1 + 1);
  }

  /** Whether most of the clipped window around `p` is set. */
  method IsMajority(sat: array<nat>, ghost mask: seq<Bit>, w: nat, h: nat, r: int, p: Point) returns (most: bool)
    requires |mask| == Area(w, h) && Tabulated(sat[..], mask, w, h, 0, h)
    requires r >= 1 && InGrid(w, h, p)
    ensures most == Majority(mask, w, h, r, p)
  {
    var x0, x1 := Max(0, p.x - r), Min(w - 1, p.x + r);
    var y0, y1 := Max(0, p.y - r), Min(h - 1, p.y + r);
    var total := Total(sat, mask, w, h, x0, x1, y0, y1);
    var rows, cols := y1 - y0 + 1, x1 - x0 + 1;
    most := total * 2 > rows * cols;
    RectSize(x0, y0, cols, rows);
    RowStartIsProduct(cols, rows);
    WindowIsRect(w, h, r, p);
  }

  ghost predicate Before(x: int, y: int, p: Point) {
    p.y < y || (p.y == y && p.x < x)
  }

  /** Pixels before (`x`, `y`) carry their verdict, the rest are still 0. */
  ghost predicate Smoothed(out: seq<Bit>, mask: seq<Bit>, w: nat, h: nat, r: int, x: int, y: int)
    requires |mask| == Area(w, h)
  {
    && |out| == Area(w, h)
    && forall p {:trigger At(out, w, h, p)} :: InGrid(w, h, p) ==>
           (At(out, w, h, p) == 1 <==> Before(x, y, p) && Majority(mask, w, h, r, p))
  }

  lemma SmoothOne(out: seq<Bit>, out': seq<Bit>, mask: seq<Bit>, w: nat, h: nat, r: int, x: nat, y: nat)
    requires |mask| == Area(w, h) && Smoothed(out, mask, w, h, r, x, y)
    requires x < w && y < h
    requires 0 <= Index(w, Point(x, y)) < |out|
    requires out' == if Majority(mask, w, h, r, Point(x, y)) then out[Index(w, Point(x, y)) := 1] else out
    ensures Smoothed(out', mask, w, h, r, x + 1, y)
  {
    var p := Point(x, y);
    forall q | InGrid(w, h, q)
      ensures At(out', w, h, q) == 1 <==> Before(x + 1, y, q) && Majority(mask, w, h, r, q)
    {
      AtUpdate(out, w, h, p, 1, q);
      assert Before(x + 1, y, q) <==> Before(x, y, q) || q == p;
    }
  }

  lemma NextRow(out: seq<Bit>, mask: seq<Bit>, w: nat, h: nat, r: int, y: int)
    requires |mask| == Area(w, h) && Smoothed(out, mask, w, h, r, w, y)
    ensures Smoothed(out, mask, w, h, r, 0, y + 1)
  {
  }

  lemma AllClear(out: seq<Bit>, mask: seq<Bit>, w: nat, h: nat, r: int)
    requires |mask| == Area(w, h) == |out| && forall i :: 0 <= i < |out| ==> out[i] == 0
    ensures Smoothed(out, mask, w, h, r, 0, 0)
  {
    forall p | InGrid(w, h, p) ensures At(out, w, h, p) == 0 {
      IndexInRange(w, h, p);
    }
  }

  method Put(out: array<Bit>, ghost mask: seq<Bit>, w: nat, h: nat, r: int, x: nat, y: nat, most: bool)
    requires |mask| == Area(w, h) && Smoothed(out[..], mask, w, h, r, x, y)
    requires x < w && y < h && most == Majority(mask, w, h, r, Point(x, y))
    modifies out
    ensures Smoothed(out[..], mask, w, h, r, x + 1, y)
  {
    IndexInRange(w, h, Point(x, y));
    ghost var before := out[..];
    if most {
      out[Index(w, Point(x, y))] := 1;
    }
    SmoothOne(before, out[..], mask, w, h, r, x, y);
  }

  /** For a radius below 1 the mask itself, uncopied; otherwise each pixel is 1
      exactly when most of its clipped window is. */
  method Smooth(mask: array<Bit>, w: nat, h: nat, r: int) returns (out: array<Bit>)
    requires mask.Length == Area(w, h)
    ensures r < 1 ==> out == mask
    ensures out.Length == Area(w, h)
    ensures r >= 1 ==> forall p :: InGrid(w, h, p) ==> (At(out[..], w, h, p) == 1 <==> Majority(mask[..], w, h, r, p))
  {
    if r < 1 {
      return mask;
    }
    var sat := BuildTable(mask[..], w, h);
    out := new Bit[Area(w, h)](_ => 0);
    AllClear(out[..], mask[..], w, h, r);
    for y := 0 to h
      invariant Smoothed(out[..], mask[..], w, h, r, 0, y)
      invariant Tabulated(sat[..], mask[..], w, h, 0, h)
    {
      for x := 0 to w
        invariant Smoothed(out[..], mask[..], w, h, r, x, y)
        invariant Tabulated(sat[..], mask[..], w, h, 0, h)
      {
        var most := IsMajority(sat, mask[..], w, h, r, Point(x, y));
        Put(out, mask[..], w, h, r, x, y, most);
      }
      NextRow(out[..], mask[..], w, h, r, y);
    }
    forall p | InGrid(w, h, p) ensures At(out[..], w, h, p) == 1 <==> Majority(mask[..], w, h, r, p) {
      assert Before(0, h, p);
    }
  }
}
