/** Line simplification of assets/brand/trace.py: Douglas-Peucker on an explicit
    stack, and its closed-ring form. Coordinates and distances are reals, and
    distances are compared squared, so no square root is taken. */
module Rdp {

  datatype Vec = Vec(x: real, y: real)

  // ----- distances ----------------------------------------------------------------

  function Dot(dx: real, dy: real): real {
    dx * dx + dy * dy
  }

  /** Squared length of the chord from `p` to `q`. */
  function LenSq(p: Vec, q: Vec): real {
    Dot(q.x - p.x, q.y - p.y)
  }

  /** A chord shorter than 1e-9 counts as a point. */
  predicate Degenerate(p: Vec, q: Vec) {
    LenSq(p, q) < 0.000000000000000001
  }

  /** Squared distance of `v` from the chord, times `Scale`: the distance to `p`
      for a degenerate chord, and to the line through `p` and `q` otherwise. */
  function Off(p: Vec, q: Vec, v: Vec): real {
    if Degenerate(p, q) then LenSq(p, v)
    else
      var cross := (q.y - p.y) * v.x - (q.x - p.x) * v.y + q.x * p.y - q.y * p.x;
      cross * cross
  }

  function Scale(p: Vec, q: Vec): real {
    if Degenerate(p, q) then 1.0 else LenSq(p, q)
  }

  /** The distance, as a square `off` over `scale`, is above `eps`. */
  predicate Exceeds(off: real, scale: real, eps: real) {
    eps < 0.0 || off > eps * eps * scale
  }

  /** `v` lies farther than `eps` from the chord. */
  predicate Beyond(p: Vec, q: Vec, v: Vec, eps: real) {
    Exceeds(Off(p, q, v), Scale(p, q), eps)
  }

  lemma OffIsNonNegative(p: Vec, q: Vec, v: Vec)
    ensures Off(p, q, v) >= 0.0 && Scale(p, q) >= 0.0
  {
  }

  /** The point of the line through `p` and `q` at parameter `t`. */
  function OnLine(p: Vec, q: Vec, t: real): Vec {
    Vec(p.x + t * (q.x - p.x), p.y + t * (q.y - p.y))
  }

  lemma ProductOfSquares(a: real, b: real, c: real, d: real)
    ensures Dot(a, b) * Dot(c, d) == (a * d - b * c) * (a * d - b * c) + (a * c + b * d) * (a * c + b * d)
  {
  }

  lemma CrossFromAnyPoint(p: Vec, q: Vec, v: Vec, t: real)
    ensures var on := OnLine(p, q, t);
            (on.x - v.x) * (q.y - p.y) - (on.y - v.y) * (q.x - p.x)
            == -((q.y - p.y) * v.x - (q.x - p.x) * v.y + q.x * p.y - q.y * p.x)
  {
  }

  lemma SquareOfNegation(x: real)
    ensures -x * -x == x * x
  {
  }

  lemma SquareIsNonNegative(x: real)
    ensures x * x >= 0.0
  {
  }

  /** The distance to any point of the line, as a square times `Scale`, is what
      `Off` says plus the square of how far that point is from the foot. */
  lemma DistanceToLine(p: Vec, q: Vec, v: Vec, t: real)
    requires !Degenerate(p, q)
    ensures var on := OnLine(p, q, t);
            var along := (on.x - v.x) * (q.x - p.x) + (on.y - v.y) * (q.y - p.y);
            LenSq(v, on) * Scale(p, q) == Off(p, q, v) + along * along
  {
    var on := OnLine(p, q, t);
    var cross := (q.y - p.y) * v.x - (q.x - p.x) * v.y + q.x * p.y - q.y * p.x;
    ProductOfSquares(on.x - v.x, on.y - v.y, q.x - p.x, q.y - p.y);
    CrossFromAnyPoint(p, q, v, t);
    SquareOfNegation(cross);
  }

  /** The foot of the perpendicular. */
  lemma Foot(p: Vec, q: Vec, v: Vec) returns (t: real)
    requires !Degenerate(p, q)
    ensures var on := OnLine(p, q, t);
            (on.x - v.x) * (q.x - p.x) + (on.y - v.y) * (q.y - p.y) == 0.0
  {
    var dx, dy, wx, wy := q.x - p.x, q.y - p.y, v.x - p.x, v.y - p.y;
    t := (wx * dx + wy * dy) / Dot(dx, dy);
    assert t * Dot(dx, dy) == wx * dx + wy * dy;
    Expand(t, dx, dy, wx, wy);
    assert OnLine(p, q, t).x - v.x == t * dx - wx && OnLine(p, q, t).y - v.y == t * dy - wy;
  }

  lemma Expand(t: real, dx: real, dy: real, wx: real, wy: real)
    ensures (t * dx - wx) * dx + (t * dy - wy) * dy == t * Dot(dx, dy) - (wx * dx + wy * dy)
  {
  }

  /** `Off` over `Scale` is a squared distance: on a chord that is not degenerate
      no point of its line is closer than that, and one is as close. */
  lemma OffIsASquaredDistance(p: Vec, q: Vec, v: Vec) returns (foot: real)
    requires !Degenerate(p, q)
    ensures forall t :: LenSq(v, OnLine(p, q, t)) * Scale(p, q) >= Off(p, q, v)
    ensures LenSq(v, OnLine(p, q, foot)) * Scale(p, q) == Off(p, q, v)
  {
    forall t ensures LenSq(v, OnLine(p, q, t)) * Scale(p, q) >= Off(p, q, v) {
      DistanceToLine(p, q, v, t);
      var on := OnLine(p, q, t);
      SquareIsNonNegative((on.x - v.x) * (q.x - p.x) + (on.y - v.y) * (q.y - p.y));
    }
    foot := Foot(p, q, v);
    DistanceToLine(p, q, v, foot);
  }

  /** A chord whose ends coincide, or lie less than 1e-9 apart, is a point, and the
      value compared is the squared distance to its first end. */
  lemma OffOfAPoint(p: Vec, q: Vec, v: Vec)
    requires p == q || SquaredDistance(p, q) < 0.000000001 * 0.000000001
    ensures Off(p, q, v) == SquaredDistance(p, v) && Scale(p, q) == 1.0
  {
  }

  function SquaredDistance(p: Vec, v: Vec): real {
    (v.x - p.x) * (v.x - p.x) + (v.y - p.y) * (v.y - p.y)
  }

  /** `v` is within `eps` of the chord from `p` to `q`, in plain distances: of `p`
      where the chord is shorter than 1e-9, and otherwise of some point of the
      line through both. */
  ghost predicate Near(p: Vec, q: Vec, v: Vec, eps: real) {
    if SquaredDistance(p, q) < 0.000000001 * 0.000000001 then SquaredDistance(p, v) <= eps * eps
    else exists t: real {:trigger OnLine(p, q, t)} :: SquaredDistance(v, OnLine(p, q, t)) <= eps * eps
  }

  lemma ScalingKeepsOrder(a: real, b: real, scale: real)
    requires scale > 0.0
    ensures a <= b <==> a * scale <= b * scale
  {
  }

  lemma LenSqIsDistance(v: Vec, on: Vec)
    ensures LenSq(v, on) == SquaredDistance(v, on) == SquaredDistance(on, v)
  {
    SquareOfNegation(on.x - v.x);
    SquareOfNegation(on.y - v.y);
  }

  lemma NearnessIsScaled(p: Vec, q: Vec, v: Vec, eps: real, t: real)
    requires !Degenerate(p, q)
    ensures SquaredDistance(v, OnLine(p, q, t)) <= eps * eps <==>
            LenSq(v, OnLine(p, q, t)) * Scale(p, q) <= eps * eps * Scale(p, q)
  {
    LenSqIsDistance(v, OnLine(p, q, t));
    ScalingKeepsOrder(LenSq(v, OnLine(p, q, t)), eps * eps, Scale(p, q));
  }

  /** What the code compares is that distance. */
  lemma BeyondIsFar(p: Vec, q: Vec, v: Vec, eps: real)
    ensures Beyond(p, q, v, eps) <==> eps < 0.0 || !Near(p, q, v, eps)
  {
    LenSqIsDistance(p, q);
    if Degenerate(p, q) {
      OffOfAPoint(p, q, v);
    } else {
      ProperBeyondIsFar(p, q, v, eps);
    }
  }

  lemma ProperBeyondIsFar(p: Vec, q: Vec, v: Vec, eps: real)
    requires !Degenerate(p, q)
    ensures Exceeds(Off(p, q, v), Scale(p, q), eps) <==>
            eps < 0.0 || !exists t: real {:trigger OnLine(p, q, t)} :: SquaredDistance(v, OnLine(p, q, t)) <= eps * eps
  {
    var foot := OffIsASquaredDistance(p, q, v);
    NearnessIsScaled(p, q, v, eps, foot);
    if t: real :| SquaredDistance(v, OnLine(p, q, t)) <= eps * eps {
      NearnessIsScaled(p, q, v, eps, t);
    }
  }

  lemma ExceedsIsMonotone(off: real, scale: real, small: real, large: real)
    requires scale >= 0.0 && small <= large && Exceeds(off, scale, large)
    ensures Exceeds(off, scale, small)
  {
  }

  // ----- the recursion the stack stands for -------------------------------------------

  /** The first of the points strictly between `a` and `n` that is farthest from
      the chord from `a` to `b`. */
  function FarthestUpTo(pts: seq<Vec>, a: nat, b: nat, n: nat): (f: nat)
    requires a + 1 < n <= b < |pts|
    ensures a < f < n
    ensures forall i :: a < i < n ==> Off(pts[a], pts[b], pts[i]) <= Off(pts[a], pts[b], pts[f])
    ensures forall i :: a < i < f ==> Off(pts[a], pts[b], pts[i]) < Off(pts[a], pts[b], pts[f])
  {
    if n == a + 2 then a + 1
    else
      var f := FarthestUpTo(pts, a, b, n - 1);
      if Off(pts[a], pts[b], pts[n - 1]) > Off(pts[a], pts[b], pts[f]) then n - 1 else f
  }

  function Farthest(pts: seq<Vec>, a: nat, b: nat): (f: nat)
    requires a + 1 < b < |pts|
    ensures a < f < b
  {
    FarthestUpTo(pts, a, b, b)
  }

  /** The chord from `a` to `b` gets broken at its farthest point. */
  predicate Breaks(pts: seq<Vec>, a: nat, b: nat, eps: real)
    requires a <= b < |pts|
  {
    a + 1 < b && Beyond(pts[a], pts[b], pts[Farthest(pts, a, b)], eps)
  }

  /** Point `i` is kept when the stretch from `a` to `b` is simplified. */
  predicate Splits(pts: seq<Vec>, a: nat, b: nat, eps: real, i: nat)
    requires a <= b < |pts|
    decreases b - a
  {
    Breaks(pts, a, b, eps) &&
    var f := Farthest(pts, a, b);
    i == f || Splits(pts, a, f, eps, i) || Splits(pts, f, b, eps, i)
  }

  predicate KeptIn(pts: seq<Vec>, a: nat, b: nat, eps: real, i: nat)
    requires a <= b < |pts|
  {
    i == a || i == b || Splits(pts, a, b, eps, i)
  }

  predicate Kept(pts: seq<Vec>, eps: real, i: nat)
    requires pts != []
  {
    KeptIn(pts, 0, |pts| - 1, eps, i)
  }

  /** The kept indices below `n`, in order. */
  function KeptBelow(pts: seq<Vec>, eps: real, n: nat): seq<nat>
    requires pts != []
  {
    if n == 0 then [] else KeptBelow(pts, eps, n - 1) + if Kept(pts, eps, n - 1) then [n - 1] else []
  }

  function Pick(pts: seq<Vec>, at: seq<nat>): (picked: seq<Vec>)
    requires forall j :: 0 <= j < |at| ==> at[j] < |pts|
  {
    seq(|at|, j requires 0 <= j < |at| => pts[at[j]])
  }

  /** The simplified line. */
  function Simplified(pts: seq<Vec>, eps: real): seq<Vec> {
    if pts == [] then [] else KeptBelowIsSound(pts, eps, |pts|); Pick(pts, KeptBelow(pts, eps, |pts|))
  }

  // ----- what the recursion keeps ---------------------------------------------------------

  lemma {:induction false} SplitsInside(pts: seq<Vec>, a: nat, b: nat, eps: real, i: nat)
    requires a <= b < |pts| && Splits(pts, a, b, eps, i)
    ensures a < i < b
    decreases b - a
  {
    var f := Farthest(pts, a, b);
    if Splits(pts, a, f, eps, i) {
      SplitsInside(pts, a, f, eps, i);
    } else if i != f {
      SplitsInside(pts, f, b, eps, i);
    }
  }

  /** `KeptBelow` lists the kept indices, each once, in ascending order. */
  lemma {:induction false} KeptBelowIsSound(pts: seq<Vec>, eps: real, n: nat)
    requires pts != [] && n <= |pts|
    ensures var at := KeptBelow(pts, eps, n);
            && (forall j :: 0 <= j < |at| ==> at[j] < n && Kept(pts, eps, at[j]))
            && (forall j, k :: 0 <= j < k < |at| ==> at[j] < at[k])
            && (forall i: nat :: i < n && Kept(pts, eps, i) ==> i in at)
  {
    if n > 0 {
      KeptBelowIsSound(pts, eps, n - 1);
      var before, at := KeptBelow(pts, eps, n - 1), KeptBelow(pts, eps, n);
      forall i: nat | i < n && Kept(pts, eps, i) ensures i in at {
        if i < n - 1 {
          assert i in before;
        }
      }
    }
  }

  /** Both ends survive. */
  lemma EndsAreKept(pts: seq<Vec>, eps: real)
    requires pts != []
    ensures var at := KeptBelow(pts, eps, |pts|);
            at != [] && at[0] == 0 && at[|at| - 1] == |pts| - 1
  {
    KeptBelowIsSound(pts, eps, |pts|);
    var at := KeptBelow(pts, eps, |pts|);
    assert 0 in at && |pts| - 1 in at;
  }

  /** Nothing is kept strictly between `l` and `r`. */
  ghost predicate Gap(pts: seq<Vec>, a: nat, b: nat, eps: real, l: nat, r: nat)
    requires a <= b < |pts|
  {
    forall k: nat {:trigger KeptIn(pts, a, b, eps, k)} :: l < k < r ==> !KeptIn(pts, a, b, eps, k)
  }

  /** Between two neighbouring kept points every dropped one is within `eps` of
      the chord that joins them. */
  lemma {:induction false} DroppedAreClose(pts: seq<Vec>, a: nat, b: nat, eps: real, l: nat, r: nat, i: nat)
    requires a <= l < i < r <= b < |pts|
    requires KeptIn(pts, a, b, eps, l) && KeptIn(pts, a, b, eps, r)
    requires Gap(pts, a, b, eps, l, r)
    ensures !Beyond(pts[l], pts[r], pts[i], eps)
    decreases b - a
  {
    if !Breaks(pts, a, b, eps) {
      UnbrokenIsClose(pts, a, b, eps, i);
    } else {
      var f := Farthest(pts, a, b);
      assert KeptIn(pts, a, b, eps, f);
      if r <= f {
        KeptOnLeft(pts, a, b, eps, l);
        KeptOnLeft(pts, a, b, eps, r);
        GapOnLeft(pts, a, b, eps, l, r);
        DroppedAreClose(pts, a, f, eps, l, r, i);
      } else {
        KeptOnRight(pts, a, b, eps, l);
        KeptOnRight(pts, a, b, eps, r);
        GapOnRight(pts, a, b, eps, l, r);
        DroppedAreClose(pts, f, b, eps, l, r, i);
      }
    }
  }

  lemma UnbrokenIsClose(pts: seq<Vec>, a: nat, b: nat, eps: real, i: nat)
    requires a < i < b < |pts| && !Breaks(pts, a, b, eps)
    ensures !Beyond(pts[a], pts[b], pts[i], eps)
  {
    var f := Farthest(pts, a, b);
    assert Off(pts[a], pts[b], pts[i]) <= Off(pts[a], pts[b], pts[f]);
  }

  lemma GapOnLeft(pts: seq<Vec>, a: nat, b: nat, eps: real, l: nat, r: nat)
    requires a <= l < r <= b < |pts| && Breaks(pts, a, b, eps)
    requires Gap(pts, a, b, eps, l, r) && r <= Farthest(pts, a, b)
    ensures Gap(pts, a, Farthest(pts, a, b), eps, l, r)
  {
    var f := Farthest(pts, a, b);
    forall k: nat {:trigger KeptIn(pts, a, f, eps, k)} | l < k < r ensures !KeptIn(pts, a, f, eps, k) {
      assert !KeptIn(pts, a, b, eps, k);
    }
  }

  lemma GapOnRight(pts: seq<Vec>, a: nat, b: nat, eps: real, l: nat, r: nat)
    requires a <= l < r <= b < |pts| && Breaks(pts, a, b, eps)
    requires Gap(pts, a, b, eps, l, r) && l >= Farthest(pts, a, b)
    ensures Gap(pts, Farthest(pts, a, b), b, eps, l, r)
  {
    var f := Farthest(pts, a, b);
    forall k: nat {:trigger KeptIn(pts, f, b, eps, k)} | l < k < r ensures !KeptIn(pts, f, b, eps, k) {
      assert !KeptIn(pts, a, b, eps, k);
    }
  }

  lemma KeptOnLeft(pts: seq<Vec>, a: nat, b: nat, eps: real, k: nat)
    requires a <= b < |pts| && Breaks(pts, a, b, eps) && KeptIn(pts, a, b, eps, k)
    requires k <= Farthest(pts, a, b)
    ensures KeptIn(pts, a, Farthest(pts, a, b), eps, k)
  {
    var f := Farthest(pts, a, b);
    if Splits(pts, f, b, eps, k) {
      SplitsInside(pts, f, b, eps, k);
    }
  }

  lemma KeptOnRight(pts: seq<Vec>, a: nat, b: nat, eps: real, k: nat)
    requires a <= b < |pts| && Breaks(pts, a, b, eps) && KeptIn(pts, a, b, eps, k)
    requires k >= Farthest(pts, a, b)
    ensures KeptIn(pts, Farthest(pts, a, b), b, eps, k)
  {
    var f := Farthest(pts, a, b);
    if Splits(pts, a, f, eps, k) {
      SplitsInside(pts, a, f, eps, k);
    }
  }

  /** No point is kept without need: an inner one is the farthest, and too far,
      from a chord between two kept points. */
  lemma {:induction false} KeptAreNeeded(pts: seq<Vec>, a: nat, b: nat, eps: real, i: nat) returns (l: nat, r: nat)
    requires a <= b < |pts| && Splits(pts, a, b, eps, i)
    ensures a <= l < i < r <= b && KeptIn(pts, a, b, eps, l) && KeptIn(pts, a, b, eps, r)
    ensures i == Farthest(pts, l, r) && (eps < 0.0 || !Near(pts[l], pts[r], pts[i], eps))
    decreases b - a
  {
    var f := Farthest(pts, a, b);
    assert Splits(pts, a, b, eps, f);
    if i == f {
      l, r := a, b;
      BeyondIsFar(pts[l], pts[r], pts[i], eps);
    } else if Splits(pts, a, f, eps, i) {
      l, r := KeptAreNeeded(pts, a, f, eps, i);
    } else {
      l, r := KeptAreNeeded(pts, f, b, eps, i);
    }
  }

  /** A larger tolerance never keeps a point that a smaller one drops. */
  lemma {:induction false} CoarserKeepsFewer(pts: seq<Vec>, a: nat, b: nat, small: real, large: real, i: nat)
    requires a <= b < |pts| && small <= large && Splits(pts, a, b, large, i)
    ensures Splits(pts, a, b, small, i)
    decreases b - a
  {
    var f := Farthest(pts, a, b);
    OffIsNonNegative(pts[a], pts[b], pts[f]);
    ExceedsIsMonotone(Off(pts[a], pts[b], pts[f]), Scale(pts[a], pts[b]), small, large);
    if Splits(pts, a, f, large, i) {
      CoarserKeepsFewer(pts, a, f, small, large, i);
    } else if i != f {
      CoarserKeepsFewer(pts, f, b, small, large, i);
    }
  }

  ghost predicate Ascending(pts: seq<Vec>, at: seq<nat>) {
    && (forall j :: 0 <= j < |at| ==> at[j] < |pts|)
    && (forall j, k :: 0 <= j < k < |at| ==> at[j] < at[k])
  }

  /** The promise of the simplification: a subsequence with both ends, and every
      dropped point within `eps` of the chord between its kept neighbours. */
  lemma SimplifiedIsFaithful(pts: seq<Vec>, eps: real)
    requires pts != []
    ensures var at := KeptBelow(pts, eps, |pts|);
            && Ascending(pts, at) && Simplified(pts, eps) == Pick(pts, at)
            && at != [] && at[0] == 0 && at[|at| - 1] == |pts| - 1
            && forall j, i {:trigger Between(at, j, i)} :: Between(at, j, i)
                 ==> eps >= 0.0 && Near(pts[at[j]], pts[at[j + 1]], pts[i], eps)
  {
    KeptBelowIsSound(pts, eps, |pts|);
    EndsAreKept(pts, eps);
    var at := KeptBelow(pts, eps, |pts|);
    forall j, i | Between(at, j, i)
      ensures eps >= 0.0 && Near(pts[at[j]], pts[at[j + 1]], pts[i], eps)
    {
      NeighboursAreClose(pts, eps, at, j, i);
    }
  }

  predicate Between(at: seq<nat>, j: int, i: int) {
    0 <= j < |at| - 1 && at[j] < i < at[j + 1]
  }

  lemma NeighboursAreClose(pts: seq<Vec>, eps: real, at: seq<nat>, j: nat, i: nat)
    requires pts != [] && Ascending(pts, at)
    requires forall k: nat :: k < |pts| ==> (k in at <==> Kept(pts, eps, k))
    requires j < |at| - 1 && at[j] < i < at[j + 1]
    ensures eps >= 0.0 && Near(pts[at[j]], pts[at[j + 1]], pts[i], eps)
  {
    assert at[j] in at && at[j + 1] in at;
    forall k: nat {:trigger KeptIn(pts, 0, |pts| - 1, eps, k)} | at[j] < k < at[j + 1]
      ensures !KeptIn(pts, 0, |pts| - 1, eps, k)
    {
      NothingBetween(pts, at, j, k);
      assert !Kept(pts, eps, k);
    }
    DroppedAreClose(pts, 0, |pts| - 1, eps, at[j], at[j + 1], i);
    BeyondIsFar(pts[at[j]], pts[at[j + 1]], pts[i], eps);
  }

  lemma NothingBetween(pts: seq<Vec>, at: seq<nat>, j: nat, k: nat)
    requires Ascending(pts, at) && j + 1 < |at| && at[j] < k < at[j + 1]
    ensures k !in at
  {
  }

  // ----- simplifying twice ----------------------------------------------------------------

  lemma InOrder(pts: seq<Vec>, at: seq<nat>, j: nat, k: nat)
    requires Ascending(pts, at) && j < |at| && k < |at|
    ensures j < k ==> at[j] < at[k]
  {
  }

  /** On the kept points alone the farthest point is the same one. */
  lemma FarthestAmongKept(pts: seq<Vec>, at: seq<nat>, j: nat, k: nat, p: nat)
    requires Ascending(pts, at) && j < p < k < |at|
    requires at[j] < at[p] < at[k] && at[p] == Farthest(pts, at[j], at[k])
    ensures Farthest(Pick(pts, at), j, k) == p
  {
    var sub := Pick(pts, at);
    var f := Farthest(sub, j, k);
    var a, b := at[j], at[k];
    InOrder(pts, at, j, f);
    InOrder(pts, at, f, k);
    InOrder(pts, at, f, p);
    assert Off(sub[j], sub[k], sub[f]) == Off(pts[a], pts[b], pts[at[f]]);
    assert Off(sub[j], sub[k], sub[p]) == Off(pts[a], pts[b], pts[at[p]]);
  }

  lemma {:induction false} KeptStayKept(pts: seq<Vec>, at: seq<nat>, eps: real, j: nat, k: nat, m: nat)
    requires Ascending(pts, at) && j < m < k < |at|
    requires forall i: nat :: at[j] < i < at[k] ==> (i in at <==> Splits(pts, at[j], at[k], eps, i))
    ensures Splits(Pick(pts, at), j, k, eps, m)
    decreases k - j
  {
    var a, b := at[j], at[k];
    assert at[m] in at && a < at[m] < b;
    var f := Farthest(pts, a, b);
    assert Splits(pts, a, b, eps, f) && f in at;
    var p :| 0 <= p < |at| && at[p] == f;
    assert j < p < k;
    FarthestAmongKept(pts, at, j, k, p);
    SplitsOfHalves(pts, a, b, eps);
    if m < p {
      KeptStayKept(pts, at, eps, j, p, m);
    } else if p < m {
      KeptStayKept(pts, at, eps, p, k, m);
    }
  }

  lemma SplitsOfHalves(pts: seq<Vec>, a: nat, b: nat, eps: real)
    requires a <= b < |pts| && Breaks(pts, a, b, eps)
    ensures var f := Farthest(pts, a, b);
            && (forall i: nat :: a < i < f ==> (Splits(pts, a, b, eps, i) <==> Splits(pts, a, f, eps, i)))
            && (forall i: nat :: f < i < b ==> (Splits(pts, a, b, eps, i) <==> Splits(pts, f, b, eps, i)))
  {
    var f := Farthest(pts, a, b);
    forall i: nat | a < i < f && Splits(pts, f, b, eps, i) ensures false {
      SplitsInside(pts, f, b, eps, i);
    }
    forall i: nat | f < i < b && Splits(pts, a, f, eps, i) ensures false {
      SplitsInside(pts, a, f, eps, i);
    }
  }

  lemma {:induction false} AllBelow(pts: seq<Vec>, eps: real, n: nat)
    requires pts != [] && n <= |pts|
    requires forall i: nat :: i < |pts| ==> Kept(pts, eps, i)
    ensures KeptBelow(pts, eps, n) == seq(n, i => i)
  {
    if n > 0 {
      AllBelow(pts, eps, n - 1);
    }
  }

  /** Simplifying a simplified line changes nothing. */
  lemma SimplifiedIsStable(pts: seq<Vec>, eps: real)
    ensures Simplified(Simplified(pts, eps), eps) == Simplified(pts, eps)
  {
    if pts != [] {
      var at := KeptBelow(pts, eps, |pts|);
      KeptBelowIsSound(pts, eps, |pts|);
      EndsAreKept(pts, eps);
      var sub := Simplified(pts, eps);
      var last := |sub| - 1;
      forall m: nat | m < |sub| ensures Kept(sub, eps, m) {
        if 0 < m < last {
          KeptStayKept(pts, at, eps, 0, last, m);
        }
      }
      AllBelow(sub, eps, |sub|);
      assert KeptBelow(sub, eps, |sub|) == seq(|sub|, i => i);
    }
  }

  // ----- the explicit stack -----------------------------------------------------------------

  datatype Stretch = Stretch(a: nat, b: nat)

  /** Point `i` will be kept by some stretch still on the stack. */
  ghost predicate Pending(pts: seq<Vec>, eps: real, stack: seq<Stretch>, i: nat)
    requires forall s :: s in stack ==> s.a < s.b < |pts|
  {
    stack != [] &&
    var top := stack[|stack| - 1];
    Splits(pts, top.a, top.b, eps, i) || Pending(pts, eps, stack[..|stack| - 1], i)
  }

  ghost function Weight(stack: seq<Stretch>): nat
    requires forall s :: s in stack ==> s.a < s.b
  {
    if stack == [] then 0
    else 2 * (stack[|stack| - 1].b - stack[|stack| - 1].a) - 1 + Weight(stack[..|stack| - 1])
  }

  /** The scan over one stretch. */
  method Scan(pts: seq<Vec>, a: nat, b: nat) returns (best: real, idx: int)
    requires a < b < |pts|
    ensures a + 1 < b ==> idx == Farthest(pts, a, b) && best == Off(pts[a], pts[b], pts[idx])
    ensures a + 1 >= b ==> idx == -1 && best == -1.0
  {
    best, idx := -1.0, -1;
    for i := a + 1 to b
      invariant i == a + 1 ==> idx == -1 && best == -1.0
      invariant i > a + 1 ==> idx == FarthestUpTo(pts, a, b, i) && best == Off(pts[a], pts[b], pts[idx])
    {
      OffIsNonNegative(pts[a], pts[b], pts[i]);
      var d := Off(pts[a], pts[b], pts[i]);
      if d > best {
        best, idx := d, i;
      }
    }
  }

  lemma PushTwo(pts: seq<Vec>, eps: real, rest: seq<Stretch>, s: Stretch, t: Stretch, i: nat)
    requires forall u :: u in rest ==> u.a < u.b < |pts|
    requires s.a < s.b < |pts| && t.a < t.b < |pts|
    ensures Pending(pts, eps, rest + [s, t], i)
            == (Splits(pts, s.a, s.b, eps, i) || Splits(pts, t.a, t.b, eps, i) || Pending(pts, eps, rest, i))
    ensures Weight(rest + [s, t]) == Weight(rest) + 2 * (s.b - s.a) - 1 + 2 * (t.b - t.a) - 1
  {
    var one, two := rest + [s], rest + [s, t];
    assert two[..|two| - 1] == one && one[..|one| - 1] == rest;
  }

  /** A point is kept exactly when it is marked or some stacked stretch keeps it. */
  ghost predicate Covered(pts: seq<Vec>, eps: real, keep: seq<bool>, stack: seq<Stretch>) {
    && pts != [] && |keep| == |pts|
    && (forall s :: s in stack ==> s.a < s.b < |pts|)
    && forall i: nat {:trigger Pending(pts, eps, stack, i)} {:trigger keep[i]} ::
         i < |pts| ==> (Kept(pts, eps, i) <==> keep[i] || Pending(pts, eps, stack, i))
  }

  lemma FirstStretch(pts: seq<Vec>, eps: real, keep: seq<bool>)
    requires |pts| >= 2 && |keep| == |pts|
    requires forall i :: 0 <= i < |pts| ==> keep[i] == (i == 0 || i == |pts| - 1)
    ensures Covered(pts, eps, keep, [Stretch(0, |pts| - 1)])
  {
    var stack := [Stretch(0, |pts| - 1)];
    forall i: nat | i < |pts| ensures Kept(pts, eps, i) <==> keep[i] || Pending(pts, eps, stack, i) {
      assert stack[..0] == [];
    }
  }

  lemma Settle(pts: seq<Vec>, eps: real, keep: seq<bool>, stack: seq<Stretch>)
    requires stack != [] && Covered(pts, eps, keep, stack)
    requires var Stretch(a, b) := stack[|stack| - 1]; !Breaks(pts, a, b, eps)
    ensures Covered(pts, eps, keep, stack[..|stack| - 1])
  {
    var rest := stack[..|stack| - 1];
    forall i: nat | i < |pts| ensures Kept(pts, eps, i) <==> keep[i] || Pending(pts, eps, rest, i) {
      assert Pending(pts, eps, stack, i) == Pending(pts, eps, rest, i);
    }
  }

  lemma Break(pts: seq<Vec>, eps: real, keep: seq<bool>, stack: seq<Stretch>, a: nat, b: nat, f: nat)
    requires stack != [] && Covered(pts, eps, keep, stack) && stack[|stack| - 1] == Stretch(a, b)
    requires Breaks(pts, a, b, eps) && f == Farthest(pts, a, b)
    ensures var rest := stack[..|stack| - 1];
            Covered(pts, eps, keep[f := true], rest + [Stretch(a, f), Stretch(f, b)])
  {
    var rest := stack[..|stack| - 1];
    var halves := rest + [Stretch(a, f), Stretch(f, b)];
    forall i: nat | i < |pts|
      ensures Kept(pts, eps, i) <==> keep[f := true][i] || Pending(pts, eps, halves, i)
    {
      PushTwo(pts, eps, rest, Stretch(a, f), Stretch(f, b), i);
      assert Pending(pts, eps, stack, i) == (Splits(pts, a, b, eps, i) || Pending(pts, eps, rest, i));
      assert Kept(pts, eps, i) <==> keep[i] || Pending(pts, eps, stack, i);
    }
  }

  /** Sets `keep` for exactly the points the recursion keeps. */
  method MarkKept(pts: seq<Vec>, eps: real) returns (keep: array<bool>)
    requires |pts| >= 2
    ensures keep.Length == |pts|
    ensures forall i :: 0 <= i < |pts| ==> keep[i] == Kept(pts, eps, i)
  {
    var n := |pts|;
    keep := new bool[n](_ => false);
    keep[0], keep[n - 1] := true, true;
    var stack := [Stretch(0, n - 1)];
    FirstStretch(pts, eps, keep[..]);
    while stack != []
      invariant Covered(pts, eps, keep[..], stack)
      decreases Weight(stack)
    {
      var Stretch(a, b) := stack[|stack| - 1];
      ghost var before, was := stack, keep[..];
      stack := stack[..|stack| - 1];
      if b <= a + 1 {
        Settle(pts, eps, was, before);
        continue;
      }
      var best, idx := Scan(pts, a, b);
      if Exceeds(best, Scale(pts[a], pts[b]), eps) && idx > 0 {
        Break(pts, eps, was, before, a, b, idx);
        PushTwo(pts, eps, stack, Stretch(a, idx), Stretch(idx, b), 0);
        keep[idx] := true;
        assert keep[..] == was[idx := true];
        stack := stack + [Stretch(a, idx), Stretch(idx, b)];
      } else {
        Settle(pts, eps, was, before);
      }
    }
    forall i: nat | i < n ensures keep[i] == Kept(pts, eps, i) {
      assert keep[..][i] == keep[i];
    }
  }

  /** Computes the simplified line. */
  method Simplify(pts: seq<Vec>, eps: real) returns (out: seq<Vec>)
    ensures out == Simplified(pts, eps)
  {
    if |pts| < 3 {
      ShortLinesAreKept(pts, eps);
      return pts;
    }
    var keep := MarkKept(pts, eps);
    out := [];
    for i := 0 to |pts|
      invariant forall k: nat :: k < |pts| ==> keep[k] == Kept(pts, eps, k)
      invariant forall j :: 0 <= j < |KeptBelow(pts, eps, i)| ==> KeptBelow(pts, eps, i)[j] < |pts|
      invariant out == Pick(pts, KeptBelow(pts, eps, i))
    {
      if keep[i] {
        out := out + [pts[i]];
      }
    }
  }

  lemma ShortLinesAreKept(pts: seq<Vec>, eps: real)
    requires |pts| < 3
    ensures Simplified(pts, eps) == pts
  {
    if pts != [] {
      AllBelow(pts, eps, |pts|);
    }
  }

  // ----- closed rings -----------------------------------------------------------------------

  /** The order the anchor is the least of: by row, then by column. */
  predicate Less(p: Vec, q: Vec) {
    p.y < q.y || (p.y == q.y && p.x < q.x)
  }

  /** The first least point among the first `n`. */
  function AnchorUpTo(pts: seq<Vec>, n: nat): (a: nat)
    requires 0 < n <= |pts|
    ensures a < n
    ensures forall i :: 0 <= i < n ==> !Less(pts[i], pts[a])
    ensures forall i :: 0 <= i < a ==> Less(pts[a], pts[i])
  {
    if n == 1 then 0
    else
      var a := AnchorUpTo(pts, n - 1);
      if Less(pts[n - 1], pts[a]) then n - 1 else a
  }

  function Anchor(pts: seq<Vec>): (a: nat)
    requires pts != []
    ensures a < |pts|
  {
    AnchorUpTo(pts, |pts|)
  }

  function Rotated<T>(s: seq<T>, k: nat): seq<T>
    requires k <= |s|
  {
    s[k..] + s[..k]
  }

  /** The ring cut open at its anchor, which is repeated at the end. */
  function Opened(pts: seq<Vec>): seq<Vec>
    requires pts != []
  {
    var ring := Rotated(pts, Anchor(pts));
    ring + [ring[0]]
  }

  function SimplifiedRing(pts: seq<Vec>, eps: real): seq<Vec> {
    if |pts| < 5 then pts
    else
      EndsAreKept(Opened(pts), eps);
      var kept := Simplified(Opened(pts), eps);
      kept[..|kept| - 1]
  }

  method SimplifyRing(pts: seq<Vec>, eps: real) returns (out: seq<Vec>)
    ensures out == SimplifiedRing(pts, eps)
  {
    if |pts| < 5 {
      return pts;
    }
    var a := Anchor(pts);
    var rot := pts[a..] + pts[..a];
    var keep := Simplify(rot + [rot[0]], eps);
    SimplifiedIsFaithful(Opened(pts), eps);
    out := if keep[0] == keep[|keep| - 1] then keep[..|keep| - 1] else keep;
  }

  lemma OpenedEnds(pts: seq<Vec>)
    requires pts != []
    ensures var ring := Opened(pts); |ring| == |pts| + 1 && ring[0] == pts[Anchor(pts)] == ring[|ring| - 1]
  {
  }

  lemma RotatedAt<T>(s: seq<T>, k: nat, i: nat)
    requires k <= |s| && i < |s|
    ensures |Rotated(s, k)| == |s|
    ensures Rotated(s, k)[i] == if i + k < |s| then s[i + k] else s[i + k - |s|]
  {
  }

  lemma RotatedTwice<T>(s: seq<T>, k: nat, b: nat)
    requires k <= |s| && b < |s|
    ensures |Rotated(s, k)| == |s|
    ensures Rotated(Rotated(s, k), b) == Rotated(s, if b + k < |s| then b + k else b + k - |s|)
  {
  }

  /** The point of the ring `i` steps on from the anchor. */
  function Around(pts: seq<Vec>, i: nat): (at: nat)
    requires i < |pts|
    ensures at < |pts|
  {
    var a := Anchor(pts);
    if a + i < |pts| then a + i else a + i - |pts|
  }

  lemma OpenedGoesAround(pts: seq<Vec>, i: nat)
    requires i < |pts|
    ensures |Opened(pts)| == |pts| + 1 && Opened(pts)[i] == pts[Around(pts, i)]
  {
    RotatedAt(pts, Anchor(pts), i);
  }

  /** How many steps from the anchor each kept point is. */
  function RingAt(pts: seq<Vec>, eps: real): seq<nat>
    requires pts != []
  {
    EndsAreKept(Opened(pts), eps);
    var kept := KeptBelow(Opened(pts), eps, |Opened(pts)|);
    kept[..|kept| - 1]
  }

  /** Ring point `i` was dropped between the `m`-th kept point and the next one,
      which for the last of them is the anchor again. */
  predicate DroppedAfter(pts: seq<Vec>, at: seq<nat>, m: nat, i: nat) {
    m < |at| && at[m] < i < if m + 1 < |at| then at[m + 1] else |pts|
  }

  /** Ring point `i` lies within `eps` of the chord from the `m`-th kept point to
      the next one round the ring. */
  ghost predicate RingClose(pts: seq<Vec>, out: seq<Vec>, eps: real, m: nat, i: nat) {
    && m < |out| && i < |pts| && eps >= 0.0
    && Near(out[m], out[if m + 1 < |out| then m + 1 else 0], pts[Around(pts, i)], eps)
  }

  lemma RingKeepsItsEnds(pts: seq<Vec>, eps: real)
    requires pts != []
    ensures var kept := KeptBelow(Opened(pts), eps, |pts| + 1);
            && |Opened(pts)| == |pts| + 1 && Ascending(Opened(pts), kept)
            && |kept| >= 2 && kept[0] == 0 && kept[|kept| - 1] == |pts|
            && RingAt(pts, eps) == kept[..|kept| - 1]
            && Simplified(Opened(pts), eps) == Pick(Opened(pts), kept)
  {
    OpenedEnds(pts);
    EndsAreKept(Opened(pts), eps);
    KeptBelowIsSound(Opened(pts), eps, |pts| + 1);
    var kept := KeptBelow(Opened(pts), eps, |pts| + 1);
    assert kept[0] != kept[|kept| - 1];
  }

  lemma RingKeeps(pts: seq<Vec>, eps: real, m: nat)
    requires |pts| >= 5 && m < |RingAt(pts, eps)|
    ensures |RingAt(pts, eps)| == |SimplifiedRing(pts, eps)|
    ensures RingAt(pts, eps)[m] < |pts| && SimplifiedRing(pts, eps)[m] == pts[Around(pts, RingAt(pts, eps)[m])]
  {
    RingKeepsItsEnds(pts, eps);
    OpenedGoesAround(pts, RingAt(pts, eps)[m]);
  }

  lemma RingHasItsPoints(pts: seq<Vec>, eps: real)
    requires |pts| >= 5
    ensures var (out, at) := (SimplifiedRing(pts, eps), RingAt(pts, eps));
            && at != [] && at[0] == 0 && |at| == |out|
            && (forall m :: 0 <= m < |at| ==> at[m] < |pts| && out[m] == pts[Around(pts, at[m])])
            && (forall m, l :: 0 <= m < l < |at| ==> at[m] < at[l])
  {
    forall m | 0 <= m < |RingAt(pts, eps)|
      ensures RingAt(pts, eps)[m] < |pts| && SimplifiedRing(pts, eps)[m] == pts[Around(pts, RingAt(pts, eps)[m])]
    {
      RingKeeps(pts, eps, m);
    }
    RingKeepsItsEnds(pts, eps);
    RingKeeps(pts, eps, 0);
  }

  lemma RingComesRound(pts: seq<Vec>, eps: real)
    requires |pts| >= 5
    ensures var out := SimplifiedRing(pts, eps);
            out != [] && out[0] == pts[Anchor(pts)] && out + [out[0]] == Simplified(Opened(pts), eps)
  {
    RingKeepsItsEnds(pts, eps);
    OpenedEnds(pts);
    var line := Simplified(Opened(pts), eps);
    assert line == line[..|line| - 1] + [line[|line| - 1]];
  }

  lemma RingPointIsClose(pts: seq<Vec>, eps: real, m: nat, i: nat)
    requires |pts| >= 5 && DroppedAfter(pts, RingAt(pts, eps), m, i)
    ensures RingClose(pts, SimplifiedRing(pts, eps), eps, m, i)
  {
    var ring, kept := Opened(pts), KeptBelow(Opened(pts), eps, |pts| + 1);
    RingKeepsItsEnds(pts, eps);
    RingHasItsPoints(pts, eps);
    KeptBelowIsSound(ring, eps, |ring|);
    assert kept[m] < i < kept[m + 1];
    NeighboursAreClose(ring, eps, kept, m, i);
    OpenedGoesAround(pts, i);
    OpenedEnds(pts);
    OpenedGoesAround(pts, kept[m]);
    if m + 1 < |RingAt(pts, eps)| {
      OpenedGoesAround(pts, kept[m + 1]);
    }
  }

  /** A ring is simplified from its anchor round to the anchor again, which is
      therefore kept, first, and kept once. The other kept points follow in ring
      order, and every dropped one, between two of them or between the last and
      the anchor, lies within `eps` of the chord that joins those two. */
  lemma RingIsFaithful(pts: seq<Vec>, eps: real)
    requires |pts| >= 5
    ensures var (out, at) := (SimplifiedRing(pts, eps), RingAt(pts, eps));
            && out != [] && out[0] == pts[Anchor(pts)]
            && (forall p :: p in pts ==> out[0].y < p.y || (out[0].y == p.y && out[0].x <= p.x))
            && out + [out[0]] == Simplified(Opened(pts), eps)
            && |at| == |out| && at[0] == 0
            && (forall m :: 0 <= m < |at| ==> at[m] < |pts| && out[m] == pts[Around(pts, at[m])])
            && (forall m, l :: 0 <= m < l < |at| ==> at[m] < at[l])
    ensures forall m: nat, i: nat {:trigger DroppedAfter(pts, RingAt(pts, eps), m, i)} ::
              DroppedAfter(pts, RingAt(pts, eps), m, i) ==> RingClose(pts, SimplifiedRing(pts, eps), eps, m, i)
  {
    RingHasItsPoints(pts, eps);
    RingComesRound(pts, eps);
    forall m: nat, i: nat | DroppedAfter(pts, RingAt(pts, eps), m, i)
      ensures RingClose(pts, SimplifiedRing(pts, eps), eps, m, i)
    {
      RingPointIsClose(pts, eps, m, i);
    }
  }

  /** A ring of fewer than five points is left alone, and so is a line of fewer
      than three. */
  lemma ShortOnesAreKept(pts: seq<Vec>, eps: real)
    ensures |pts| < 5 ==> SimplifiedRing(pts, eps) == pts
    ensures |pts| < 3 ==> Simplified(pts, eps) == pts
  {
    if |pts| < 3 {
      ShortLinesAreKept(pts, eps);
    }
  }

  /** Where a ring is written down from does not matter, as long as its least
      point is passed only once. */
  lemma RotationDoesNotMatter(pts: seq<Vec>, eps: real, k: nat)
    requires |pts| >= 5 && k <= |pts|
    requires forall i :: 0 <= i < |pts| && i != Anchor(pts) ==> pts[i] != pts[Anchor(pts)]
    ensures SimplifiedRing(Rotated(pts, k), eps) == SimplifiedRing(pts, eps)
  {
    var n, a, turned := |pts|, Anchor(pts), Rotated(pts, k);
    RotatedAt(pts, k, if a >= k then a - k else a + n - k);
    var b := Anchor(turned);
    RotatedAt(pts, k, b);
    assert !Less(pts[a], turned[b]) && !Less(turned[b], pts[a]);
    assert turned[b] == pts[a];
    RotatedTwice(pts, k, b);
    assert Opened(turned) == Opened(pts);
  }
}
