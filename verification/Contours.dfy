/** Boundary loops between set and unset pixels, as assets/brand/trace.py extracts them. */
module Contours {
  import opened Raster

  /** A directed unit step between two corners of the pixel grid. */
  datatype Side = Side(from: Point, to: Point)

  // ----- the boundary of a mask -----------------------------------------------

  predicate UnitStep(s: Side) {
    (s.from.y == s.to.y && (s.to.x == s.from.x + 1 || s.to.x == s.from.x - 1))
    || (s.from.x == s.to.x && (s.to.y == s.from.y + 1 || s.to.y == s.from.y - 1))
  }

  /** The pixel on the art side of a step, and the one across from it. Pixel
      (x, y) has its corners at (x, y) to (x + 1, y + 1). */
  function Inside(s: Side): Point {
    if s.to.x == s.from.x + 1 then s.from
    else if s.to.x == s.from.x - 1 then Point(s.from.x - 1, s.from.y - 1)
    else if s.to.y == s.from.y + 1 then Point(s.from.x - 1, s.from.y)
    else Point(s.from.x, s.from.y - 1)
  }

  function Outside(s: Side): Point {
    if s.to.x == s.from.x + 1 then Point(s.from.x, s.from.y - 1)
    else if s.to.x == s.from.x - 1 then Point(s.from.x - 1, s.from.y)
    else if s.to.y == s.from.y + 1 then s.from
    else Point(s.from.x - 1, s.from.y - 1)
  }

  predicate On(mask: seq<Bit>, w: nat, h: nat, p: Point)
    requires |mask| == Area(w, h)
  {
    InGrid(w, h, p) && At(mask, w, h, p) != 0
  }

  predicate IsBoundary(mask: seq<Bit>, w: nat, h: nat, s: Side)
    requires |mask| == Area(w, h)
  {
    UnitStep(s) && On(mask, w, h, Inside(s)) && !On(mask, w, h, Outside(s))
  }

  /** The direction of every boundary step: going east the art lies to the south,
      going south to the west, going west to the north, going north to the east,
      and across from it there is none. */
  lemma BoundaryKeepsArtOnOneSide(mask: seq<Bit>, w: nat, h: nat, x: int, y: int)
    requires |mask| == Area(w, h)
    ensures IsBoundary(mask, w, h, Side(Point(x, y), Point(x + 1, y)))
            <==> On(mask, w, h, Point(x, y)) && !On(mask, w, h, Point(x, y - 1))
    ensures IsBoundary(mask, w, h, Side(Point(x, y), Point(x, y + 1)))
            <==> On(mask, w, h, Point(x - 1, y)) && !On(mask, w, h, Point(x, y))
    ensures IsBoundary(mask, w, h, Side(Point(x + 1, y), Point(x, y)))
            <==> On(mask, w, h, Point(x, y - 1)) && !On(mask, w, h, Point(x, y))
    ensures IsBoundary(mask, w, h, Side(Point(x, y + 1), Point(x, y)))
            <==> On(mask, w, h, Point(x, y)) && !On(mask, w, h, Point(x - 1, y))
  {
  }

  ghost predicate IsBoundarySet(sides: set<Side>, mask: seq<Bit>, w: nat, h: nat)
    requires |mask| == Area(w, h)
  {
    forall s {:trigger s in sides} :: s in sides <==> IsBoundary(mask, w, h, s)
  }

  // ----- degrees ----------------------------------------------------------------

  function East(v: Point): Point { Point(v.x + 1, v.y) }

  function West(v: Point): Point { Point(v.x - 1, v.y) }

  function South(v: Point): Point { Point(v.x, v.y + 1) }

  function North(v: Point): Point { Point(v.x, v.y - 1) }

  function One(b: bool): nat { if b then 1 else 0 }

  ghost function OutDegree(sides: set<Side>, v: Point): nat {
    One(Side(v, East(v)) in sides) + One(Side(v, West(v)) in sides)
    + One(Side(v, South(v)) in sides) + One(Side(v, North(v)) in sides)
  }

  ghost function InDegree(sides: set<Side>, v: Point): nat {
    One(Side(East(v), v) in sides) + One(Side(West(v), v) in sides)
    + One(Side(South(v), v) in sides) + One(Side(North(v), v) in sides)
  }

  ghost predicate UnitSteps(sides: set<Side>) {
    forall s :: s in sides ==> UnitStep(s)
  }

  /** As many steps leave every corner as enter it, but for a walk that has
      got from `start` to `cur`: it still has to leave `cur` and enter `start`. */
  ghost predicate Balanced(sides: set<Side>, start: Point, cur: Point) {
    forall v {:trigger OutDegree(sides, v)} {:trigger InDegree(sides, v)} ::
      OutDegree(sides, v) + One(v == start) == InDegree(sides, v) + One(v == cur)
  }

  /** Around any corner the mask changes from unset to set as often as back. */
  lemma BoundaryIsBalanced(mask: seq<Bit>, w: nat, h: nat, sides: set<Side>, start: Point)
    requires |mask| == Area(w, h)
    requires IsBoundarySet(sides, mask, w, h)
    ensures Balanced(sides, start, start)
  {
    forall v ensures OutDegree(sides, v) == InDegree(sides, v) {
      CornerIsBalanced(mask, w, h, sides, v);
    }
  }

  lemma CornerIsBalanced(mask: seq<Bit>, w: nat, h: nat, sides: set<Side>, v: Point)
    requires |mask| == Area(w, h)
    requires IsBoundarySet(sides, mask, w, h)
    ensures OutDegree(sides, v) == InDegree(sides, v)
  {
  }

  lemma TakeKeepsBalance(sides: set<Side>, start: Point, cur: Point, next: Point)
    requires Balanced(sides, start, cur)
    requires Side(cur, next) in sides && UnitStep(Side(cur, next))
    ensures Balanced(sides - {Side(cur, next)}, start, next)
  {
    var rest := sides - {Side(cur, next)};
    forall v ensures OutDegree(rest, v) + One(v == start) == InDegree(rest, v) + One(v == next) {
      TakenFromDegrees(sides, cur, next, v);
    }
  }

  lemma TakenFromDegrees(sides: set<Side>, cur: Point, next: Point, v: Point)
    requires Side(cur, next) in sides && UnitStep(Side(cur, next))
    ensures OutDegree(sides, v) == OutDegree(sides - {Side(cur, next)}, v) + One(v == cur)
    ensures InDegree(sides, v) == InDegree(sides - {Side(cur, next)}, v) + One(v == next)
  {
  }

  /** A walk that has not closed can always go on. */
  lemma OpenWalkGoesOn(sides: set<Side>, start: Point, cur: Point) returns (next: Point)
    requires Balanced(sides, start, cur) && start != cur
    ensures Side(cur, next) in sides
  {
    assert OutDegree(sides, cur) > 0;
    next := if Side(cur, East(cur)) in sides then East(cur)
            else if Side(cur, West(cur)) in sides then West(cur)
            else if Side(cur, South(cur)) in sides then South(cur) else North(cur);
  }

  // ----- the edge dictionary ------------------------------------------------------

  /** From each corner, the corners still to be stepped to; never an empty list. */
  type Edges = map<Point, seq<Point>>

  /** The dictionary lists exactly `sides`, none twice. */
  ghost predicate Lists(edges: Edges, sides: set<Side>) {
    && (forall p {:trigger edges[p]} :: p in edges ==> edges[p] != [])
    && (forall p, i, j {:trigger edges[p][i], edges[p][j]} :: p in edges && 0 <= i < j < |edges[p]| ==>
           edges[p][i] != edges[p][j])
    && (forall p, q {:trigger Side(p, q) in sides} :: Side(p, q) in sides <==> p in edges && q in edges[p])
  }

  function Appended(edges: Edges, p: Point, q: Point): Edges {
    edges[p := (if p in edges then edges[p] else []) + [q]]
  }

  lemma AppendLists(edges: Edges, sides: set<Side>, p: Point, q: Point)
    requires Lists(edges, sides) && Side(p, q) !in sides
    ensures Lists(Appended(edges, p, q), sides + {Side(p, q)})
  {
  }

  /** `nxts.pop()`, and the key goes with its last entry. */
  function Popped(edges: Edges, p: Point): Edges
    requires p in edges && edges[p] != []
  {
    var nexts := edges[p];
    if |nexts| == 1 then edges - {p} else edges[p := nexts[..|nexts| - 1]]
  }

  /** The step added last to a corner is taken first. */
  lemma LastAddedIsTaken(edges: Edges, sides: set<Side>, p: Point, q: Point)
    requires Lists(edges, sides)
    ensures var longer := Appended(edges, p, q);
            longer[p][|longer[p]| - 1] == q && Popped(longer, p) == edges
  {
    if p in edges {
      assert (edges[p] + [q])[..|edges[p]|] == edges[p];
    }
  }

  lemma PopLists(edges: Edges, sides: set<Side>, p: Point)
    requires Lists(edges, sides) && p in edges
    ensures var q := edges[p][|edges[p]| - 1];
            Side(p, q) in sides && Lists(Popped(edges, p), sides - {Side(p, q)})
  {
  }

  // ----- collecting the boundary ----------------------------------------------------

  ghost predicate Before(x: int, y: int, p: Point) {
    p.y < y || (p.y == y && p.x < x)
  }

  /** The boundary steps of the pixels before (`x`, `y`). */
  ghost predicate Collected(sides: set<Side>, mask: seq<Bit>, w: nat, h: nat, x: int, y: int)
    requires |mask| == Area(w, h)
  {
    forall s {:trigger s in sides} :: s in sides <==> IsBoundary(mask, w, h, s) && Before(x, y, Inside(s))
  }

  method AddIf(wanted: bool, edges: Edges, ghost sides: set<Side>, p: Point, q: Point)
    returns (edges': Edges, ghost sides': set<Side>)
    requires Lists(edges, sides) && Side(p, q) !in sides
    ensures Lists(edges', sides')
    ensures sides' == sides + OneIf(wanted, Side(p, q))
  {
    edges', sides' := edges, sides;
    if wanted {
      AppendLists(edges, sides, p, q);
      edges', sides' := Appended(edges, p, q), sides + {Side(p, q)};
    }
  }

  /** The four sides of a pixel, walked with the pixel on the art side. */
  function Top(x: int, y: int): Side { Side(Point(x, y), Point(x + 1, y)) }

  function Bottom(x: int, y: int): Side { Side(Point(x + 1, y + 1), Point(x, y + 1)) }

  function Left(x: int, y: int): Side { Side(Point(x, y + 1), Point(x, y)) }

  function Right(x: int, y: int): Side { Side(Point(x + 1, y), Point(x + 1, y + 1)) }

  lemma FourSides(s: Side, x: int, y: int)
    ensures UnitStep(s) && Inside(s) == Point(x, y) <==> s in {Top(x, y), Bottom(x, y), Left(x, y), Right(x, y)}
  {
  }

  lemma PixelCollected(sides: set<Side>, sides': set<Side>, mask: seq<Bit>, w: nat, h: nat, x: int, y: int)
    requires |mask| == Area(w, h) && Collected(sides, mask, w, h, x, y)
    requires sides' == sides + OneIf(IsBoundary(mask, w, h, Top(x, y)), Top(x, y))
                       + OneIf(IsBoundary(mask, w, h, Bottom(x, y)), Bottom(x, y))
                       + OneIf(IsBoundary(mask, w, h, Left(x, y)), Left(x, y))
                       + OneIf(IsBoundary(mask, w, h, Right(x, y)), Right(x, y))
    ensures Collected(sides', mask, w, h, x + 1, y)
  {
    forall s ensures s in sides' <==> IsBoundary(mask, w, h, s) && Before(x + 1, y, Inside(s)) {
      FourSides(s, x, y);
      assert Before(x + 1, y, Inside(s)) <==> Before(x, y, Inside(s)) || Inside(s) == Point(x, y);
    }
  }

  lemma TopOrBottomIsOpen(mask: seq<Bit>, w: nat, h: nat, x: nat, y: nat)
    requires |mask| == Area(w, h) && x < w && y < h && At(mask, w, h, Point(x, y)) != 0
    ensures IsBoundary(mask, w, h, Top(x, y)) <==> y == 0 || At(mask, w, h, Point(x, y - 1)) == 0
    ensures IsBoundary(mask, w, h, Bottom(x, y)) <==> y == h - 1 || At(mask, w, h, Point(x, y + 1)) == 0
  {
    assert Inside(Top(x, y)) == Inside(Bottom(x, y)) == Point(x, y);
    assert Outside(Top(x, y)) == Point(x, y - 1) && Outside(Bottom(x, y)) == Point(x, y + 1);
  }

  lemma LeftOrRightIsOpen(mask: seq<Bit>, w: nat, h: nat, x: nat, y: nat)
    requires |mask| == Area(w, h) && x < w && y < h && At(mask, w, h, Point(x, y)) != 0
    ensures IsBoundary(mask, w, h, Left(x, y)) <==> x == 0 || At(mask, w, h, Point(x - 1, y)) == 0
    ensures IsBoundary(mask, w, h, Right(x, y)) <==> x == w - 1 || At(mask, w, h, Point(x + 1, y)) == 0
  {
    assert Inside(Left(x, y)) == Inside(Right(x, y)) == Point(x, y);
    assert Outside(Left(x, y)) == Point(x - 1, y) && Outside(Right(x, y)) == Point(x + 1, y);
  }

  ghost function OneIf(wanted: bool, s: Side): set<Side> {
    if wanted then {s} else {}
  }

  method AddTopAndBottom(mask: seq<Bit>, w: nat, h: nat, x: nat, y: nat, edges: Edges, ghost sides: set<Side>)
    returns (edges': Edges, ghost sides': set<Side>)
    requires |mask| == Area(w, h) && x < w && y < h && At(mask, w, h, Point(x, y)) != 0
    requires Lists(edges, sides) && Top(x, y) !in sides && Bottom(x, y) !in sides
    ensures Lists(edges', sides')
    ensures sides' == sides + OneIf(IsBoundary(mask, w, h, Top(x, y)), Top(x, y))
                      + OneIf(IsBoundary(mask, w, h, Bottom(x, y)), Bottom(x, y))
  {
    TopOrBottomIsOpen(mask, w, h, x, y);
    edges', sides' := AddIf(y == 0 || At(mask, w, h, Point(x, y - 1)) == 0, edges, sides, Point(x, y), Point(x + 1, y));
    edges', sides' := AddIf(y == h - 1 || At(mask, w, h, Point(x, y + 1)) == 0, edges', sides', Point(x + 1, y + 1),
                            Point(x, y + 1));
  }

  method AddLeftAndRight(mask: seq<Bit>, w: nat, h: nat, x: nat, y: nat, edges: Edges, ghost sides: set<Side>)
    returns (edges': Edges, ghost sides': set<Side>)
    requires |mask| == Area(w, h) && x < w && y < h && At(mask, w, h, Point(x, y)) != 0
    requires Lists(edges, sides) && Left(x, y) !in sides && Right(x, y) !in sides
    ensures Lists(edges', sides')
    ensures sides' == sides + OneIf(IsBoundary(mask, w, h, Left(x, y)), Left(x, y))
                      + OneIf(IsBoundary(mask, w, h, Right(x, y)), Right(x, y))
  {
    LeftOrRightIsOpen(mask, w, h, x, y);
    edges', sides' := AddIf(x == 0 || At(mask, w, h, Point(x - 1, y)) == 0, edges, sides, Point(x, y + 1), Point(x, y));
    edges', sides' := AddIf(x == w - 1 || At(mask, w, h, Point(x + 1, y)) == 0, edges', sides', Point(x + 1, y),
                            Point(x + 1, y + 1));
  }

  /** The sides of one set pixel that have no set pixel across. */
  method AddPixel(mask: seq<Bit>, w: nat, h: nat, x: nat, y: nat, edges: Edges, ghost sides: set<Side>)
    returns (edges': Edges, ghost sides': set<Side>)
    requires |mask| == Area(w, h) && x < w && y < h
    requires Lists(edges, sides) && Collected(sides, mask, w, h, x, y)
    ensures Lists(edges', sides') && Collected(sides', mask, w, h, x + 1, y)
  {
    edges', sides' := edges, sides;
    if At(mask, w, h, Point(x, y)) != 0 {
      NotYetCollected(sides, mask, w, h, x, y);
      edges', sides' := AddTopAndBottom(mask, w, h, x, y, edges', sides');
      edges', sides' := AddLeftAndRight(mask, w, h, x, y, edges', sides');
    } else {
      UnsetHasNoSides(mask, w, h, x, y);
    }
    PixelCollected(sides, sides', mask, w, h, x, y);
  }

  lemma NotYetCollected(sides: set<Side>, mask: seq<Bit>, w: nat, h: nat, x: int, y: int)
    requires |mask| == Area(w, h) && Collected(sides, mask, w, h, x, y)
    ensures Top(x, y) !in sides && Bottom(x, y) !in sides && Left(x, y) !in sides && Right(x, y) !in sides
  {
  }

  lemma UnsetHasNoSides(mask: seq<Bit>, w: nat, h: nat, x: int, y: int)
    requires |mask| == Area(w, h) && !On(mask, w, h, Point(x, y))
    ensures !IsBoundary(mask, w, h, Top(x, y)) && !IsBoundary(mask, w, h, Bottom(x, y))
    ensures !IsBoundary(mask, w, h, Left(x, y)) && !IsBoundary(mask, w, h, Right(x, y))
  {
  }

  method Collect(mask: seq<Bit>, w: nat, h: nat) returns (edges: Edges, ghost sides: set<Side>)
    requires |mask| == Area(w, h)
    ensures Lists(edges, sides)
    ensures IsBoundarySet(sides, mask, w, h)
  {
    edges, sides := map[], {};
    for y := 0 to h
      invariant Lists(edges, sides) && Collected(sides, mask, w, h, 0, y)
    {
      for x := 0 to w
        invariant Lists(edges, sides) && Collected(sides, mask, w, h, x, y)
      {
        edges, sides := AddPixel(mask, w, h, x, y, edges, sides);
      }
      RowCollected(sides, mask, w, h, y);
    }
    AllCollected(sides, mask, w, h);
  }

  lemma RowCollected(sides: set<Side>, mask: seq<Bit>, w: nat, h: nat, y: nat)
    requires |mask| == Area(w, h) && Collected(sides, mask, w, h, w, y)
    ensures Collected(sides, mask, w, h, 0, y + 1)
  {
  }

  lemma AllCollected(sides: set<Side>, mask: seq<Bit>, w: nat, h: nat)
    requires |mask| == Area(w, h) && Collected(sides, mask, w, h, 0, h)
    ensures IsBoundarySet(sides, mask, w, h)
  {
  }

  // ----- walking the loops ------------------------------------------------------------

  /** The steps of a walk, with their multiplicity. */
  ghost function StepsOf(walk: seq<Point>): multiset<Side> {
    if |walk| < 2 then multiset{}
    else StepsOf(walk[..|walk| - 1]) + multiset{Side(walk[|walk| - 2], walk[|walk| - 1])}
  }

  ghost function AllSteps(walks: seq<seq<Point>>): multiset<Side> {
    if walks == [] then multiset{} else AllSteps(walks[..|walks| - 1]) + StepsOf(walks[|walks| - 1])
  }

  /** Ends where it began, and not earlier. */
  ghost predicate Closed(walk: seq<Point>) {
    |walk| >= 2 && walk[0] == walk[|walk| - 1] && forall i :: 0 < i < |walk| - 1 ==> walk[i] != walk[0]
  }

  lemma StepsOfLonger(walk: seq<Point>, p: Point)
    requires walk != []
    ensures StepsOf(walk + [p]) == StepsOf(walk) + multiset{Side(walk[|walk| - 1], p)}
  {
  }

  /** Takes one step of the walk out of the dictionary. */
  lemma TakeStep(edges: Edges, sides: set<Side>, start: Point, cur: Point, walk: seq<Point>, whole: multiset<Side>)
    returns (next: Point)
    requires Lists(edges, sides) && UnitSteps(sides) && Balanced(sides, start, cur) && cur in edges
    requires walk != [] && walk[|walk| - 1] == cur && StepsOf(walk) + multiset(sides) == whole
    ensures edges[cur] != [] && next == edges[cur][|edges[cur]| - 1]
    ensures Side(cur, next) in sides
    ensures var rest := sides - {Side(cur, next)};
            && Lists(Popped(edges, cur), rest) && UnitSteps(rest) && Balanced(rest, start, next)
            && StepsOf(walk + [next]) + multiset(rest) == whole
  {
    assert edges[cur] != [];
    next := edges[cur][|edges[cur]| - 1];
    PopLists(edges, sides, cur);
    TakeKeepsBalance(sides, start, cur, next);
    StepsOfLonger(walk, next);
    assert multiset(sides) == multiset(sides - {Side(cur, next)}) + multiset{Side(cur, next)};
  }

  /** Everything a walk in progress keeps. `whole` is what there was to walk. */
  ghost predicate Walking(edges: Edges, sides: set<Side>, start: Point, walk: seq<Point>, whole: multiset<Side>) {
    && Lists(edges, sides) && UnitSteps(sides)
    && walk != [] && walk[0] == start
    && Balanced(sides, start, walk[|walk| - 1])
    && (forall i :: 0 < i < |walk| - 1 ==> walk[i] != start)
    && StepsOf(walk) + multiset(sides) == whole
  }

  lemma NotStuck(edges: Edges, sides: set<Side>, start: Point, walk: seq<Point>, whole: multiset<Side>)
    requires Walking(edges, sides, start, walk, whole) && walk[|walk| - 1] != start
    ensures walk[|walk| - 1] in edges
  {
    var next := OpenWalkGoesOn(sides, start, walk[|walk| - 1]);
  }

  lemma StepWalks(edges: Edges, sides: set<Side>, start: Point, walk: seq<Point>, whole: multiset<Side>)
    returns (rest: set<Side>)
    requires Walking(edges, sides, start, walk, whole)
    requires walk[|walk| - 1] in edges && (|walk| > 1 ==> walk[|walk| - 1] != start)
    ensures var cur := walk[|walk| - 1];
            && edges[cur] != []
            && Walking(Popped(edges, cur), rest, start, walk + [edges[cur][|edges[cur]| - 1]], whole)
    ensures |walk| <= |whole|
  {
    var cur := walk[|walk| - 1];
    var next := TakeStep(edges, sides, start, cur, walk, whole);
    rest := sides - {Side(cur, next)};
    WalkSize(walk + [next]);
  }

  /** As many steps have been taken as the walk is long. */
  lemma {:induction false} WalkSize(walk: seq<Point>)
    requires walk != []
    ensures |StepsOf(walk)| == |walk| - 1
  {
    if |walk| > 1 {
      WalkSize(walk[..|walk| - 1]);
    }
  }

  /** One loop: the walk cannot get stuck, so it comes back to `start`. */
  method TraceLoop(edges: Edges, ghost sides: set<Side>, start: Point)
    returns (loop: seq<Point>, edges': Edges, ghost sides': set<Side>)
    requires Lists(edges, sides) && UnitSteps(sides) && Balanced(sides, start, start)
    requires start in edges
    ensures Walking(edges', sides', start, loop, multiset(sides))
    ensures |loop| > 1 && loop[|loop| - 1] == start
  {
    loop := [start];
    var cur := start;
    edges', sides' := edges, sides;
    while true
      invariant Walking(edges', sides', start, loop, multiset(sides))
      invariant loop[|loop| - 1] == cur
      invariant if |loop| == 1 then edges' == edges else cur != start
      decreases |multiset(sides)| + 1 - |loop|
    {
      if cur != start {
        NotStuck(edges', sides', start, loop, multiset(sides));
      }
      if cur !in edges' {
        break;
      }
      ghost var rest := StepWalks(edges', sides', start, loop, multiset(sides));
      var next := edges'[cur][|edges'[cur]| - 1];
      edges', sides' := Popped(edges', cur), rest;
      loop := loop + [next];
      cur := next;
      if cur == start {
        break;
      }
    }
  }

  /** Loops of eight steps or more; the count includes the closing point. */
  function LongOnes(walks: seq<seq<Point>>): seq<seq<Point>> {
    if walks == [] then []
    else LongOnes(walks[..|walks| - 1]) + if |walks[|walks| - 1]| > 8 then [walks[|walks| - 1]] else []
  }

  /** Exactly the loops of more than eight points are returned, as often as they
      were found, and in that order. */
  lemma {:induction false} LongOnesAreKept(some: seq<seq<Point>>, more: seq<seq<Point>>, loop: seq<Point>)
    ensures LongOnes(some + more) == LongOnes(some) + LongOnes(more)
    ensures LongOnes([loop]) == if |loop| > 8 then [loop] else []
  {
    assert [loop][..0] == [];
    if more == [] {
      assert some + more == some;
    } else {
      assert (some + more)[..|some + more| - 1] == some + more[..|more| - 1];
      LongOnesAreKept(some, more[..|more| - 1], loop);
    }
  }

  /** Leaving loops out takes no step twice. */
  lemma {:induction false} LongOnesUseFewer(all: seq<seq<Point>>)
    requires forall i :: 0 <= i < |all| ==> Closed(all[i])
    ensures AllSteps(LongOnes(all)) <= AllSteps(all)
    ensures forall loop :: loop in LongOnes(all) ==> Closed(loop) && |loop| > 8
  {
    if all != [] {
      var rest, last := all[..|all| - 1], all[|all| - 1];
      LongOnesUseFewer(rest);
      if |last| > 8 {
        assert (LongOnes(rest) + [last])[..|LongOnes(rest)|] == LongOnes(rest);
      } else {
        assert LongOnes(all) == LongOnes(rest);
      }
    }
  }

  /** What the extraction keeps from loop to loop. */
  ghost predicate Extracting(edges: Edges, sides: set<Side>, all: seq<seq<Point>>, boundary: set<Side>) {
    && Lists(edges, sides) && UnitSteps(sides)
    && (forall p {:trigger Balanced(sides, p, p)} :: Balanced(sides, p, p))
    && (forall i :: 0 <= i < |all| ==> Closed(all[i]))
    && AllSteps(all) + multiset(sides) == multiset(boundary)
  }

  lemma LoopExtracted(edges: Edges, sides: set<Side>, all: seq<seq<Point>>, boundary: set<Side>,
                      edges': Edges, sides': set<Side>, start: Point, loop: seq<Point>)
    requires Extracting(edges, sides, all, boundary)
    requires Walking(edges', sides', start, loop, multiset(sides)) && |loop| > 1 && loop[|loop| - 1] == start
    ensures Extracting(edges', sides', all + [loop], boundary)
    ensures LongOnes(all + [loop]) == LongOnes(all) + if |loop| > 8 then [loop] else []
    ensures |sides'| < |sides|
  {
    assert (all + [loop])[..|all|] == all;
    forall p ensures Balanced(sides', p, p) {
      assert Balanced(sides', start, start);
    }
    WalkSize(loop);
    assert |multiset(sides')| == |sides'| && |multiset(sides)| == |sides|;
    assert |StepsOf(loop) + multiset(sides')| == |StepsOf(loop)| + |sides'|;
  }

  lemma NoEdgesNoSides(edges: Edges, sides: set<Side>, all: seq<seq<Point>>, boundary: set<Side>)
    requires Extracting(edges, sides, all, boundary) && edges == map[]
    ensures AllSteps(all) == multiset(boundary)
  {
  }

  /** Every loop closes, and `all` of them together use each boundary step of
      the mask exactly once; the long ones are returned in extraction order. */
  method Contours(mask: seq<Bit>, w: nat, h: nat)
    returns (loops: seq<seq<Point>>, ghost all: seq<seq<Point>>, ghost boundary: set<Side>)
    requires |mask| == Area(w, h)
    ensures IsBoundarySet(boundary, mask, w, h)
    ensures forall i :: 0 <= i < |all| ==> Closed(all[i])
    ensures AllSteps(all) == multiset(boundary)
    ensures loops == LongOnes(all)
    ensures forall loop :: loop in loops ==> Closed(loop) && |loop| > 8
    ensures forall s {:trigger AllSteps(loops)[s]} :: AllSteps(loops)[s] <= if IsBoundary(mask, w, h, s) then 1 else 0
  {
    var edges;
    edges, boundary := Collect(mask, w, h);
    ghost var sides := boundary;
    loops, all := [], [];
    forall p ensures Balanced(sides, p, p) {
      BoundaryIsBalanced(mask, w, h, sides, p);
    }
    while edges != map[]
      invariant Extracting(edges, sides, all, boundary)
      invariant loops == LongOnes(all)
      decreases |sides|
    {
      var start :| start in edges;
      ghost var edgesWere, sidesWere := edges, sides;
      var loop;
      loop, edges, sides := TraceLoop(edges, sides, start);
      LoopExtracted(edgesWere, sidesWere, all, boundary, edges, sides, start, loop);
      all := all + [loop];
      if |loop| > 8 {
        loops := loops + [loop];
      }
    }
    NoEdgesNoSides(edges, sides, all, boundary);
    LongOnesUseFewer(all);
    assert AllSteps(loops) <= multiset(boundary);
  }
}
