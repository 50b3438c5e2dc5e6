/** The page behind the art: a flood fill from the image border. */
module Background {
  import opened Raster

  ghost predicate OnBorder(w: nat, h: nat, p: Point) {
    InGrid(w, h, p) && (p.x == 0 || p.x == w - 1 || p.y == 0 || p.y == h - 1)
  }

  ghost predicate Adjacent(p: Point, q: Point) {
    (p.x == q.x && (q.y == p.y + 1 || q.y == p.y - 1)) || (p.y == q.y && (q.x == p.x + 1 || q.x == p.x - 1))
  }

  /** Four neighbours: one step away in one direction. */
  lemma AdjacentMeans(p: Point, q: Point)
    ensures Adjacent(p, q) <==>
            (if p.x >= q.x then p.x - q.x else q.x - p.x) + (if p.y >= q.y then p.y - q.y else q.y - p.y) == 1
  {
  }

  predicate HasLabel(lab: seq<nat>, w: nat, h: nat, colour: nat, p: Point)
    requires |lab| == Area(w, h)
  {
    InGrid(w, h, p) && At(lab, w, h, p) == colour
  }

  /** A 4-connected walk over pixels of one label that starts on the border. */
  ghost predicate IsRoute(lab: seq<nat>, w: nat, h: nat, colour: nat, route: seq<Point>)
    requires |lab| == Area(w, h)
  {
    && |route| > 0
    && OnBorder(w, h, route[0])
    && (forall i :: 0 <= i < |route| ==> HasLabel(lab, w, h, colour, route[i]))
    && (forall i :: 0 < i < |route| ==> Adjacent(route[i - 1], route[i]))
  }

  /** The pixel is background: some route from the border ends on it. */
  ghost predicate IsPage(lab: seq<nat>, w: nat, h: nat, colour: nat, p: Point)
    requires |lab| == Area(w, h)
  {
    exists route :: IsRoute(lab, w, h, colour, route) && route[|route| - 1] == p
  }

  lemma BorderIsPage(lab: seq<nat>, w: nat, h: nat, colour: nat, p: Point)
    requires |lab| == Area(w, h)
    requires OnBorder(w, h, p) && HasLabel(lab, w, h, colour, p)
    ensures IsPage(lab, w, h, colour, p)
  {
    assert IsRoute(lab, w, h, colour, [p]);
  }

  lemma NeighbourIsPage(lab: seq<nat>, w: nat, h: nat, colour: nat, p: Point, q: Point)
    requires |lab| == Area(w, h)
    requires IsPage(lab, w, h, colour, p) && Adjacent(p, q) && HasLabel(lab, w, h, colour, q)
    ensures IsPage(lab, w, h, colour, q)
  {
    var route :| IsRoute(lab, w, h, colour, route) && route[|route| - 1] == p;
    assert IsRoute(lab, w, h, colour, route + [q]);
  }

  /** A set that holds every labelled border pixel and is closed under stepping
      to a labelled neighbour. */
  ghost predicate HoldsBorder(lab: seq<nat>, w: nat, h: nat, colour: nat, marked: set<Point>)
    requires |lab| == Area(w, h)
  {
    forall p :: OnBorder(w, h, p) && HasLabel(lab, w, h, colour, p) ==> p in marked
  }

  ghost predicate ClosedAt(lab: seq<nat>, w: nat, h: nat, colour: nat, p: Point, marked: set<Point>)
    requires |lab| == Area(w, h)
  {
    forall q :: Adjacent(p, q) && HasLabel(lab, w, h, colour, q) ==> q in marked
  }

  /** Such a set holds every page pixel, however the route winds. */
  lemma {:induction false} ClosedSetHoldsRoute(lab: seq<nat>, w: nat, h: nat, colour: nat, marked: set<Point>,
                                               route: seq<Point>)
    requires |lab| == Area(w, h)
    requires HoldsBorder(lab, w, h, colour, marked)
    requires forall p :: p in marked ==> ClosedAt(lab, w, h, colour, p, marked)
    requires IsRoute(lab, w, h, colour, route)
    ensures route[|route| - 1] in marked
  {
    if |route| > 1 {
      var before := route[..|route| - 1];
      assert IsRoute(lab, w, h, colour, before);
      ClosedSetHoldsRoute(lab, w, h, colour, marked, before);
      assert Adjacent(route[|route| - 2], route[|route| - 1]);
    }
  }

  ghost function Elements(s: seq<Point>): set<Point> {
    if s == [] then {} else Elements(s[..|s| - 1]) + {s[|s| - 1]}
  }

  /** Nothing in `s` comes twice. */
  ghost predicate Unrepeated(s: seq<Point>) {
    s == [] || (s[|s| - 1] !in Elements(s[..|s| - 1]) && Unrepeated(s[..|s| - 1]))
  }

  lemma {:induction false} ElementsAreMembers(s: seq<Point>, i: nat)
    requires i < |s|
    ensures s[i] in Elements(s)
  {
    if i < |s| - 1 {
      ElementsAreMembers(s[..|s| - 1], i);
    }
  }

  lemma {:induction false} UnrepeatedIsDistinct(s: seq<Point>)
    requires Unrepeated(s)
    ensures forall i, j :: 0 <= i < j < |s| ==> s[i] != s[j]
  {
    if s != [] {
      var front := s[..|s| - 1];
      UnrepeatedIsDistinct(front);
      forall i | 0 <= i < |front| ensures s[i] in Elements(front) {
        ElementsAreMembers(front, i);
      }
    }
  }

  /** The buffer holds 1 exactly at the marked pixels. */
  ghost predicate Shows(cells: seq<Bit>, w: nat, h: nat, marked: set<Point>) {
    && |cells| == Area(w, h)
    && (forall p :: p in marked ==> InGrid(w, h, p))
    && forall p {:trigger At(cells, w, h, p)} :: InGrid(w, h, p) ==> (At(cells, w, h, p) == 1 <==> p in marked)
  }

  /** What every step of the fill keeps: `queued` lists, without repeats, each
      pixel ever put on the queue, and they are the marked ones, all of them page. */
  ghost predicate Filling(w: nat, h: nat, page: set<Point>, cells: seq<Bit>, marked: set<Point>, queued: seq<Point>) {
    && Shows(cells, w, h, marked)
    && Unrepeated(queued)
    && Elements(queued) == marked
    && marked <= page
  }

  /** Mark and queue one pixel unless it is another label or already marked. */
  method Visit(lab: seq<nat>, w: nat, h: nat, colour: nat, bg: array<Bit>, p: Point, dq: seq<Point>,
               ghost page: set<Point>, ghost marked: set<Point>, ghost queued: seq<Point>)
    returns (dq': seq<Point>, ghost marked': set<Point>, ghost queued': seq<Point>)
    requires |lab| == Area(w, h)
    requires InGrid(w, h, p)
    requires Filling(w, h, page, bg[..], marked, queued)
    requires HasLabel(lab, w, h, colour, p) ==> p in page
    modifies bg
    ensures Filling(w, h, page, bg[..], marked', queued')
    ensures if HasLabel(lab, w, h, colour, p) && p !in marked
            then dq' == dq + [p] && queued' == queued + [p] && marked' == marked + {p}
            else dq' == dq && queued' == queued && marked' == marked
  {
    dq', marked', queued' := dq, marked, queued;
    IndexInRange(w, h, p);
    var k := Index(w, p);
    assert bg[k] == At(bg[..], w, h, p) && lab[k] == At(lab, w, h, p);
    if bg[k] == 0 && lab[k] == colour {
      ghost var cells := bg[..];
      bg[k] := 1;
      MarkOne(cells, w, h, marked, p);
      assert (queued + [p])[..|queued|] == queued;
      dq' := dq + [p];
      marked', queued' := marked + {p}, queued + [p];
    }
  }

  lemma MarkOne(cells: seq<Bit>, w: nat, h: nat, marked: set<Point>, p: Point)
    requires Shows(cells, w, h, marked) && InGrid(w, h, p)
    ensures 0 <= Index(w, p) < |cells| && Shows(cells[Index(w, p) := 1], w, h, marked + {p})
  {
    IndexInRange(w, h, p);
    var cells' := cells[Index(w, p) := 1];
    assert |cells'| == Area(w, h);
    forall q | InGrid(w, h, q) ensures At(cells', w, h, q) == 1 <==> q in marked + {p} {
      AtUpdate(cells, w, h, p, 1, q);
    }
  }

  lemma NothingMarked(cells: seq<Bit>, w: nat, h: nat)
    requires |cells| == Area(w, h) && forall i :: 0 <= i < |cells| ==> cells[i] == 0
    ensures Shows(cells, w, h, {})
  {
    forall q | InGrid(w, h, q) ensures At(cells, w, h, q) == 0 {
      IndexInRange(w, h, q);
    }
  }

  /** The queue can only ever take as many pixels as the image has. */
  lemma {:induction false} UnrepeatedSize(s: seq<Point>)
    requires Unrepeated(s)
    ensures |Elements(s)| == |s|
  {
    if s != [] {
      UnrepeatedSize(s[..|s| - 1]);
    }
  }

  lemma QueueIsBounded(w: nat, h: nat, page: set<Point>, cells: seq<Bit>, marked: set<Point>, queued: seq<Point>)
    requires Filling(w, h, page, cells, marked, queued)
    ensures |queued| <= |Cells(w, h)|
  {
    UnrepeatedSize(queued);
    assert marked <= Cells(w, h);
    SubsetSize(marked, Cells(w, h));
  }

  lemma SubsetSize(a: set<Point>, b: set<Point>)
    requires a <= b
    ensures |a| <= |b|
  {
    assert b == a + (b - a);
  }

  /** The background pixels at the ends of the first `n` columns are marked. */
  ghost predicate HoldsColumnEnds(lab: seq<nat>, w: nat, h: nat, colour: nat, marked: set<Point>, n: nat)
    requires |lab| == Area(w, h)
  {
    forall p: Point :: 0 <= p.x < n && (p.y == 0 || p.y == h - 1) && HasLabel(lab, w, h, colour, p) ==> p in marked
  }

  ghost predicate HoldsRowEnds(lab: seq<nat>, w: nat, h: nat, colour: nat, marked: set<Point>, n: nat)
    requires |lab| == Area(w, h)
  {
    forall p: Point :: 0 <= p.y < n && (p.x == 0 || p.x == w - 1) && HasLabel(lab, w, h, colour, p) ==> p in marked
  }

  /** Both ends of each column, left to right. */
  method SeedColumns(lab: seq<nat>, w: nat, h: nat, colour: nat, bg: array<Bit>, ghost page: set<Point>)
    returns (dq: seq<Point>, ghost marked: set<Point>)
    requires (w == 0 || h >= 1) && |lab| == Area(w, h)
    requires Filling(w, h, page, bg[..], {}, [])
    requires HoldsBorder(lab, w, h, colour, page)
    modifies bg
    ensures Filling(w, h, page, bg[..], marked, dq)
    ensures HoldsColumnEnds(lab, w, h, colour, marked, w)
  {
    dq, marked := [], {};
    ghost var queued;
    for x := 0 to w
      invariant Filling(w, h, page, bg[..], marked, dq)
      invariant HoldsColumnEnds(lab, w, h, colour, marked, x)
    {
      dq, marked, queued := Visit(lab, w, h, colour, bg, Point(x, 0), dq, page, marked, dq);
      dq, marked, queued := Visit(lab, w, h, colour, bg, Point(x, h - 1), dq, page, marked, dq);
    }
  }

  /** Both ends of each row, top to bottom. */
  method SeedRows(lab: seq<nat>, w: nat, h: nat, colour: nat, bg: array<Bit>, seeds: seq<Point>,
                  ghost page: set<Point>, ghost seeded: set<Point>)
    returns (dq: seq<Point>, ghost marked: set<Point>)
    requires (h == 0 || w >= 1) && |lab| == Area(w, h)
    requires Filling(w, h, page, bg[..], seeded, seeds)
    requires HoldsBorder(lab, w, h, colour, page)
    modifies bg
    ensures Filling(w, h, page, bg[..], marked, dq) && seeded <= marked
    ensures HoldsRowEnds(lab, w, h, colour, marked, h)
  {
    dq, marked := seeds, seeded;
    ghost var queued;
    for y := 0 to h
      invariant Filling(w, h, page, bg[..], marked, dq) && seeded <= marked
      invariant HoldsRowEnds(lab, w, h, colour, marked, y)
    {
      dq, marked, queued := Visit(lab, w, h, colour, bg, Point(0, y), dq, page, marked, dq);
      dq, marked, queued := Visit(lab, w, h, colour, bg, Point(w - 1, y), dq, page, marked, dq);
    }
  }

  lemma Concat(a: seq<Point>, b: seq<Point>, c: seq<Point>)
    ensures (a + b) + c == a + (b + c)
  {
  }

  lemma PopAndAppend(queued: seq<Point>, done: nat, added: seq<Point>)
    requires done < |queued|
    ensures queued[done..][1..] + added == (queued + added)[done + 1..]
    ensures Elements((queued + added)[..done + 1]) == Elements(queued[..done]) + {queued[done]}
  {
    var upTo := (queued + added)[..done + 1];
    assert upTo[..done] == queued[..done] && upTo[done] == queued[done];
  }

  /** The four offsets, in the order the fill tries them. */
  function Neighbour(p: Point, i: nat): Point {
    if i == 0 then Point(p.x + 1, p.y)
    else if i == 1 then Point(p.x - 1, p.y)
    else if i == 2 then Point(p.x, p.y + 1)
    else Point(p.x, p.y - 1)
  }

  lemma FourNeighbours(lab: seq<nat>, w: nat, h: nat, colour: nat, p: Point, marked: set<Point>)
    requires |lab| == Area(w, h)
    requires forall j :: 0 <= j < 4 && HasLabel(lab, w, h, colour, Neighbour(p, j)) ==> Neighbour(p, j) in marked
    ensures ClosedAt(lab, w, h, colour, p, marked)
  {
    forall q | Adjacent(p, q) && HasLabel(lab, w, h, colour, q) ensures q in marked {
      var j := if q.x == p.x + 1 then 0 else if q.x == p.x - 1 then 1 else if q.y == p.y + 1 then 2 else 3;
      assert q == Neighbour(p, j);
    }
  }

  /** One of the four neighbours, if the image has it. */
  method VisitNeighbour(lab: seq<nat>, w: nat, h: nat, colour: nat, bg: array<Bit>, q: Point, dq: seq<Point>,
                        ghost page: set<Point>, ghost marked: set<Point>, ghost queued: seq<Point>)
    returns (dq': seq<Point>, ghost marked': set<Point>, ghost added: seq<Point>)
    requires |lab| == Area(w, h)
    requires HasLabel(lab, w, h, colour, q) ==> q in page
    requires Filling(w, h, page, bg[..], marked, queued)
    modifies bg
    ensures Filling(w, h, page, bg[..], marked', queued + added)
    ensures HasLabel(lab, w, h, colour, q) ==> q in marked'
    ensures dq' == dq + added && marked <= marked'
  {
    dq', marked', added := dq, marked, [];
    assert queued + added == queued && dq + added == dq;
    if 0 <= q.x < w && 0 <= q.y < h {
      ghost var queued';
      dq', marked', queued' := Visit(lab, w, h, colour, bg, q, dq, page, marked, queued);
      if marked' != marked {
        added := [q];
      }
    }
  }

  /** Visit the four neighbours of a pixel taken off the queue. */
  method Expand(lab: seq<nat>, w: nat, h: nat, colour: nat, bg: array<Bit>, p: Point, dq: seq<Point>,
                ghost page: set<Point>, ghost marked: set<Point>, ghost queued: seq<Point>)
    returns (dq': seq<Point>, ghost marked': set<Point>, ghost added: seq<Point>)
    requires |lab| == Area(w, h)
    requires InGrid(w, h, p) && ClosedAt(lab, w, h, colour, p, page)
    requires Filling(w, h, page, bg[..], marked, queued)
    modifies bg
    ensures Filling(w, h, page, bg[..], marked', queued + added)
    ensures marked <= marked' && ClosedAt(lab, w, h, colour, p, marked')
    ensures dq' == dq + added
  {
    dq', marked', added := dq, marked, [];
    assert queued + added == queued && dq + added == dq;
    ghost var tried: set<Point> := {};
    for i := 0 to 4
      invariant Filling(w, h, page, bg[..], marked', queued + added)
      invariant marked <= marked'
      invariant dq' == dq + added
      invariant forall j :: 0 <= j < i ==> Neighbour(p, j) in tried
      invariant forall q :: q in tried && HasLabel(lab, w, h, colour, q) ==> q in marked'
    {
      var q := Neighbour(p, i);
      ghost var more;
      dq', marked', more := VisitNeighbour(lab, w, h, colour, bg, q, dq', page, marked', queued + added);
      tried := tried + {q};
      Concat(queued, added, more);
      Concat(dq, added, more);
      added := added + more;
    }
    FourNeighbours(lab, w, h, colour, p, marked');
  }

  /** The page as a set: the border belongs to it, and it is closed. */
  lemma PageIsClosed(lab: seq<nat>, w: nat, h: nat, colour: nat) returns (page: set<Point>)
    requires |lab| == Area(w, h)
    ensures forall p :: p in page <==> InGrid(w, h, p) && IsPage(lab, w, h, colour, p)
    ensures HoldsBorder(lab, w, h, colour, page)
    ensures forall p :: p in page ==> ClosedAt(lab, w, h, colour, p, page)
  {
    page := set p | p in Cells(w, h) && IsPage(lab, w, h, colour, p);
    forall p | OnBorder(w, h, p) && HasLabel(lab, w, h, colour, p) ensures p in page {
      BorderIsPage(lab, w, h, colour, p);
    }
    forall p, q | p in page && Adjacent(p, q) && HasLabel(lab, w, h, colour, q) ensures q in page {
      NeighbourIsPage(lab, w, h, colour, p, q);
    }
  }

  lemma ClosedSetHoldsPage(lab: seq<nat>, w: nat, h: nat, colour: nat, page: set<Point>, marked: set<Point>)
    requires |lab| == Area(w, h)
    requires HoldsBorder(lab, w, h, colour, marked)
    requires forall p :: p in marked ==> ClosedAt(lab, w, h, colour, p, marked)
    requires forall p :: p in page ==> IsPage(lab, w, h, colour, p)
    ensures page <= marked
  {
    forall p | p in page ensures p in marked {
      var route :| IsRoute(lab, w, h, colour, route) && route[|route| - 1] == p;
      ClosedSetHoldsRoute(lab, w, h, colour, marked, route);
    }
  }

  /** Empties the queue: afterwards the marked set is closed. */
  method Drain(lab: seq<nat>, w: nat, h: nat, colour: nat, bg: array<Bit>, seeds: seq<Point>,
               ghost page: set<Point>, ghost seeded: set<Point>)
    returns (ghost marked: set<Point>, ghost queued: seq<Point>)
    requires |lab| == Area(w, h)
    requires Filling(w, h, page, bg[..], seeded, seeds)
    requires forall p :: p in page ==> ClosedAt(lab, w, h, colour, p, page)
    modifies bg
    ensures Filling(w, h, page, bg[..], marked, queued)
    ensures seeded <= marked
    ensures forall p :: p in marked ==> ClosedAt(lab, w, h, colour, p, marked)
  {
    var dq := seeds;
    marked, queued := seeded, seeds;
    ghost var done := 0;
    while dq != []
      invariant Filling(w, h, page, bg[..], marked, queued)
      invariant seeded <= marked
      invariant done <= |queued| && dq == queued[done..]
      invariant forall p :: p in Elements(queued[..done]) ==> ClosedAt(lab, w, h, colour, p, marked)
      decreases |Cells(w, h)| - done
    {
      var p := dq[0];
      ElementsAreMembers(queued, done);
      QueueIsBounded(w, h, page, bg[..], marked, queued);
      ghost var added;
      dq, marked, added := Expand(lab, w, h, colour, bg, p, dq[1..], page, marked, queued);
      PopAndAppend(queued, done, added);
      queued, done := queued + added, done + 1;
    }
    assert queued[..done] == queued;
  }

  lemma SidesHoldBorder(lab: seq<nat>, w: nat, h: nat, colour: nat, marked: set<Point>)
    requires |lab| == Area(w, h)
    requires HoldsColumnEnds(lab, w, h, colour, marked, w) && HoldsRowEnds(lab, w, h, colour, marked, h)
    ensures HoldsBorder(lab, w, h, colour, marked)
  {
  }

  /** Marks exactly the page, and queues no pixel twice (`queued` is every
      pixel ever appended to the queue, in order). */
  method Background(lab: seq<nat>, w: nat, h: nat, colour: nat) returns (bg: array<Bit>, ghost queued: seq<Point>)
    requires (w == 0 <==> h == 0) && |lab| == Area(w, h)
    ensures bg.Length == Area(w, h)
    ensures forall p :: InGrid(w, h, p) ==> (At(bg[..], w, h, p) == 1 <==> IsPage(lab, w, h, colour, p))
    ensures forall i, j :: 0 <= i < j < |queued| ==> queued[i] != queued[j]
  {
    ghost var page := PageIsClosed(lab, w, h, colour);
    bg := new Bit[Area(w, h)](_ => 0);
    NothingMarked(bg[..], w, h);
    var dq;
    ghost var marked;
    dq, marked := SeedColumns(lab, w, h, colour, bg, page);
    dq, marked := SeedRows(lab, w, h, colour, bg, dq, page, marked);
    SidesHoldBorder(lab, w, h, colour, marked);
    marked, queued := Drain(lab, w, h, colour, bg, dq, page, marked);
    ClosedSetHoldsPage(lab, w, h, colour, page, marked);
    UnrepeatedIsDistinct(queued);
  }
}
