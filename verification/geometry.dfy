/** Signed-area geometry of a counting line, in exact arithmetic. */
module Geometry {
  import opened Common

  datatype Point = Point(x: real, y: real)

  datatype Vector = Vector(start: Point, end: Point) {
    function Dx(): real { end.x - start.x }
    function Dy(): real { end.y - start.y }
  }

  datatype Box = Box(x1: real, y1: real, x2: real, y2: real)

  datatype Position =
    | Center | CenterLeft | CenterRight
    | TopCenter | TopLeft | TopRight
    | BottomLeft | BottomCenter | BottomRight

  function Anchor(b: Box, p: Position): Point {
    match p
    case Center => Point((b.x1 + b.x2) / 2.0, (b.y1 + b.y2) / 2.0)
    case CenterLeft => Point(b.x1, (b.y1 + b.y2) / 2.0)
    case CenterRight => Point(b.x2, (b.y1 + b.y2) / 2.0)
    case TopCenter => Point((b.x1 + b.x2) / 2.0, b.y1)
    case TopLeft => Point(b.x1, b.y1)
    case TopRight => Point(b.x2, b.y1)
    case BottomLeft => Point(b.x1, b.y2)
    case BottomCenter => Point((b.x1 + b.x2) / 2.0, b.y2)
    case BottomRight => Point(b.x2, b.y2)
  }

  function Cross(v: Vector, a: Point): real {
    v.Dx() * (a.y - v.start.y) - v.Dy() * (a.x - v.start.x)
  }

  /** `m` is the length of `v`: the square root, without computing it. */
  ghost predicate IsMagnitude(v: Vector, m: real) {
    m >= 0.0 && m * m == v.Dx() * v.Dx() + v.Dy() * v.Dy()
  }

  /** The two perpendiculars that bound the region of interest. */
  function Limits(v: Vector, m: real): (Vector, Vector)
    requires m != 0.0
  {
    var px := -(v.Dy() / m);
    var py := v.Dx() / m;
    (Vector(v.start, Point(v.start.x + px, v.start.y + py)),
     Vector(v.end, Point(v.end.x - px, v.end.y - py)))
  }

  predicate Between(limits: (Vector, Vector), a: Point) {
    (Cross(limits.0, a) > 0.0) == (Cross(limits.1, a) > 0.0)
  }

  /** `d · (a − s)`: how far along the line the anchor projects, times the length. */
  function Along(v: Vector, a: Point): real {
    v.Dx() * (a.x - v.start.x) + v.Dy() * (a.y - v.start.y)
  }

  function LengthSquared(v: Vector): real {
    v.Dx() * v.Dx() + v.Dy() * v.Dy()
  }

  lemma Scaled(x: real, y: real, m: real)
    requires m > 0.0
    ensures x / m * y * m == x * y
  {
    assert x / m * m == x;
  }

  lemma PositiveProduct(x: real, y: real, s: real)
    requires s == x * y && x > 0.0 && y > 0.0
    ensures s > 0.0
  {
  }

  lemma SquareSign(x: real, s: real)
    requires s == x * x
    ensures s >= 0.0
    ensures s == 0.0 <==> x == 0.0
  {
    if x < 0.0 {
      PositiveProduct(-x, -x, s);
    } else if x > 0.0 {
      PositiveProduct(x, x, s);
    }
  }

  lemma SignOfProduct(x: real, m: real)
    requires m > 0.0
    ensures x > 0.0 <==> x * m > 0.0
  {
    if x <= 0.0 {
      assert (-x) * m >= 0.0;
    }
  }

  lemma SumOfSquares(m: real, x: real, y: real, mm: real, xx: real, yy: real)
    requires mm == m * m && xx == x * x && yy == y * y && mm == xx + yy
    ensures m == 0.0 <==> x == 0.0 && y == 0.0
  {
    SquareSign(m, mm);
    SquareSign(x, xx);
    SquareSign(y, yy);
  }

  /** The constructor's zero-magnitude check refuses exactly the degenerate line. */
  lemma ZeroMagnitude(v: Vector, m: real)
    requires IsMagnitude(v, m)
    ensures m == 0.0 <==> v.start == v.end
  {
    SumOfSquares(m, v.Dx(), v.Dy(), m * m, v.Dx() * v.Dx(), v.Dy() * v.Dy());
  }

  lemma NegatedSum(x: real, y: real, m: real)
    ensures (-x - y) * m == -(x * m) - y * m
  {
  }

  /** The perpendicular at the start, seen from an offset `(ax, ay)`. */
  lemma StartProduct(dx: real, dy: real, ax: real, ay: real, m: real)
    requires m > 0.0
    ensures (-(dy / m) * ay - dx / m * ax) * m == -(dx * ax + dy * ay)
  {
    var x, y := dy / m * ay, dx / m * ax;
    Scaled(dy, ay, m);
    Scaled(dx, ax, m);
    NegatedSum(x, y, m);
    assert -(dy / m) * ay == -x;
  }

  lemma StartLimit(v: Vector, m: real, a: Point)
    requires IsMagnitude(v, m) && m > 0.0
    ensures Cross(Limits(v, m).0, a) * m == -Along(v, a)
  {
    var ax, ay := a.x - v.start.x, a.y - v.start.y;
    var l := Limits(v, m).0;
    assert l.Dx() == -(v.Dy() / m) && l.Dy() == v.Dx() / m;
    assert Cross(l, a) == -(v.Dy() / m) * ay - v.Dx() / m * ax;
    StartProduct(v.Dx(), v.Dy(), ax, ay, m);
  }

  lemma EndLimit(v: Vector, m: real, a: Point)
    requires IsMagnitude(v, m) && m > 0.0
    ensures Cross(Limits(v, m).1, a) * m == Along(v, a) - LengthSquared(v)
  {
    var ax, ay := a.x - v.end.x, a.y - v.end.y;
    var l := Limits(v, m).1;
    assert l.Dx() == v.Dy() / m && l.Dy() == -(v.Dx() / m);
    assert Cross(l, a) == v.Dy() / m * ay + v.Dx() / m * ax;
    Scaled(v.Dy(), ay, m);
    Scaled(v.Dx(), ax, m);
    assert Cross(l, a) * m == v.Dy() / m * ay * m + v.Dx() / m * ax * m;
    assert Cross(l, a) * m == v.Dy() * ay + v.Dx() * ax;
    AlongFromEnd(v, a);
  }

  lemma AlongFromEnd(v: Vector, a: Point)
    ensures v.Dx() * (a.x - v.end.x) + v.Dy() * (a.y - v.end.y) == Along(v, a) - LengthSquared(v)
  {
    assert v.Dx() * (a.x - v.end.x) == v.Dx() * (a.x - v.start.x) - v.Dx() * v.Dx();
    assert v.Dy() * (a.y - v.end.y) == v.Dy() * (a.y - v.start.y) - v.Dy() * v.Dy();
  }

  /** The test with two opposite perpendiculars accepts an anchor exactly when
      its projection falls on the closed segment. */
  lemma BetweenMeansOnSegment(v: Vector, m: real, a: Point)
    requires IsMagnitude(v, m) && m != 0.0
    ensures Between(Limits(v, m), a) <==> 0.0 <= Along(v, a) <= LengthSquared(v)
  {
    StartLimit(v, m, a);
    EndLimit(v, m, a);
    SignOfProduct(Cross(Limits(v, m).0, a), m);
    SignOfProduct(Cross(Limits(v, m).1, a), m);
    SquareSign(m, m * m);
  }

  // ---- Reading one box against the line ----

  /** The side recorded for a box: `None` when an anchor projects outside the
      segment or the anchors are on both sides, else whether it is on the left. */
  function Reading(v: Vector, limits: (Vector, Vector), anchors: seq<Position>, b: Box): Option<bool> {
    var inLimits := forall p | p in anchors :: Between(limits, Anchor(b, p));
    var anyLeft := exists p | p in anchors :: Cross(v, Anchor(b, p)) < 0.0;
    var anyRight := exists p | p in anchors :: !(Cross(v, Anchor(b, p)) < 0.0);
    if !inLimits || (anyLeft && anyRight) then None else Some(anyLeft)
  }

  // ---- Which side is left, in coordinates ----

  /** The point `q` lies `t` of the way along the line and `u` line lengths to its
      left, looking at the picture with y growing downwards. */
  ghost predicate Beside(v: Vector, q: Point, t: real, u: real) {
    && q.x == v.start.x + t * (v.end.x - v.start.x) + u * (v.end.y - v.start.y)
    && q.y == v.start.y + t * (v.end.y - v.start.y) - u * (v.end.x - v.start.x)
  }

  /** Where an anchor sits in its box, as fractions of width and height. */
  function Fraction(p: Position): (real, real) {
    (match p
     case TopLeft => 0.0 case CenterLeft => 0.0 case BottomLeft => 0.0
     case TopRight => 1.0 case CenterRight => 1.0 case BottomRight => 1.0
     case _ => 0.5,
     match p
     case TopLeft => 0.0 case TopCenter => 0.0 case TopRight => 0.0
     case BottomLeft => 1.0 case BottomCenter => 1.0 case BottomRight => 1.0
     case _ => 0.5)
  }

  lemma AnchorInBox(b: Box, p: Position)
    ensures Anchor(b, p).x == b.x1 + Fraction(p).0 * (b.x2 - b.x1)
    ensures Anchor(b, p).y == b.y1 + Fraction(p).1 * (b.y2 - b.y1)
  {
  }

  /** The signed area in these coordinates. */
  lemma CrossBeside(dx: real, dy: real, t: real, u: real)
    ensures dx * (t * dy - u * dx) - dy * (t * dx + u * dy) == -(u * (dx * dx + dy * dy))
  {
    assert dx * (t * dy - u * dx) == t * (dx * dy) - u * (dx * dx);
    assert dy * (t * dx + u * dy) == t * (dx * dy) + u * (dy * dy);
    assert u * (dx * dx + dy * dy) == u * (dx * dx) + u * (dy * dy);
  }

  lemma AlongBeside(dx: real, dy: real, t: real, u: real)
    ensures dx * (t * dx + u * dy) + dy * (t * dy - u * dx) == t * (dx * dx + dy * dy)
  {
    assert dx * (t * dx + u * dy) == t * (dx * dx) + u * (dx * dy);
    assert dy * (t * dy - u * dx) == t * (dy * dy) - u * (dx * dy);
    assert t * (dx * dx + dy * dy) == t * (dx * dx) + t * (dy * dy);
  }

  lemma SignBeside(t: real, l: real)
    requires l > 0.0
    ensures (t > 0.0 <==> t * l > 0.0) && (t >= 0.0 <==> t * l >= 0.0) && (t <= 1.0 <==> t * l <= l)
  {
    SignOfProduct(t, l);
    SignOfProduct(t - 1.0, l);
    SignOfProduct(-t, l);
    assert (t - 1.0) * l == t * l - l;
    assert (-t) * l == -(t * l);
  }

  /** Sign of the signed area and place along the line of an offset `(ax, ay)`. */
  lemma OffsetBeside(dx: real, dy: real, ax: real, ay: real, t: real, u: real, l: real)
    requires ax == t * dx + u * dy && ay == t * dy - u * dx && l == dx * dx + dy * dy && l > 0.0
    ensures dx * ay - dy * ax < 0.0 <==> u > 0.0
    ensures 0.0 <= dx * ax + dy * ay <= l <==> 0.0 <= t <= 1.0
  {
    CrossBeside(dx, dy, t, u);
    AlongBeside(dx, dy, t, u);
    var along := dx * ax + dy * ay;
    assert along == t * l;
    SignBeside(t, l);
    SignBeside(u, l);
  }

  lemma BesideMeans(v: Vector, m: real, q: Point, t: real, u: real)
    requires IsMagnitude(v, m) && m != 0.0 && Beside(v, q, t, u)
    ensures Cross(v, q) < 0.0 <==> u > 0.0
    ensures Between(Limits(v, m), q) <==> 0.0 <= t <= 1.0
  {
    hide Between, Limits;
    SquareSign(m, m * m);
    OffsetBeside(v.Dx(), v.Dy(), q.x - v.start.x, q.y - v.start.y, t, u, LengthSquared(v));
    BetweenMeansOnSegment(v, m, q);
  }

  /** Undoing the two products. */
  lemma SolveProducts(dx: real, dy: real, ax: real, ay: real, p: real, q: real, r: real)
    requires p == dx * dx && q == dy * dy && r == dx * dy
    ensures (dx * ax + dy * ay) * dx + (dy * ax - dx * ay) * dy == (p + q) * ax
    ensures (dx * ax + dy * ay) * dy - (dy * ax - dx * ay) * dx == (p + q) * ay
  {
    assert (dx * ax + dy * ay) * dx == p * ax + r * ay;
    assert (dy * ax - dx * ay) * dy == q * ax - r * ay;
    assert (dx * ax + dy * ay) * dy == r * ax + q * ay;
    assert (dy * ax - dx * ay) * dx == r * ax - p * ay;
  }

  lemma Solve(dx: real, dy: real, ax: real, ay: real, l: real, a: real, c: real)
    requires l == dx * dx + dy * dy && l > 0.0 && a == dx * ax + dy * ay && c == dy * ax - dx * ay
    ensures a / l * dx + c / l * dy == ax && a / l * dy - c / l * dx == ay
  {
    SolveProducts(dx, dy, ax, ay, dx * dx, dy * dy, dx * dy);
    Quotients(a, dx, c, dy, l);
    Quotients(a, dy, -c, dx, l);
    Cancel(l, ax);
    Cancel(l, ay);
    assert -c / l == -(c / l);
  }

  lemma Cancel(l: real, x: real)
    requires l != 0.0
    ensures l * x / l == x
  {
  }

  lemma Quotients(a: real, x: real, c: real, y: real, l: real)
    requires l != 0.0
    ensures a / l * x + c / l * y == (a * x + c * y) / l
  {
    assert a / l * x == a * x / l;
    assert c / l * y == c * y / l;
  }

  /** Every point has such coordinates. */
  lemma AlwaysBeside(v: Vector, q: Point)
    requires v.start != v.end
    ensures exists t, u :: Beside(v, q, t, u)
  {
    var dx, dy, ax, ay := v.Dx(), v.Dy(), q.x - v.start.x, q.y - v.start.y;
    var l := dx * dx + dy * dy;
    SquareSign(dx, dx * dx);
    SquareSign(dy, dy * dy);
    var a, c := dx * ax + dy * ay, dy * ax - dx * ay;
    Solve(dx, dy, ax, ay, l, a, c);
    assert Beside(v, q, a / l, c / l);
  }

  /** The reading of a box, from where its anchors lie: none if an anchor is beyond
      an end of the line, or if some are to its left and some are not; otherwise left
      exactly when they are to its left. */
  lemma ReadingInCoordinates(v: Vector, m: real, anchors: seq<Position>, b: Box,
                             t: Position -> real, u: Position -> real)
    requires IsMagnitude(v, m) && m != 0.0
    requires forall p | p in anchors :: Beside(v, Anchor(b, p), t(p), u(p))
    ensures Reading(v, Limits(v, m), anchors, b) ==
      if exists p | p in anchors :: t(p) < 0.0 || t(p) > 1.0 then None
      else if (exists p | p in anchors :: u(p) > 0.0) && (exists p | p in anchors :: u(p) <= 0.0) then None
      else Some(exists p | p in anchors :: u(p) > 0.0)
  {
    hide Between, Limits, Cross, Anchor, Beside;
    forall p | p in anchors
      ensures Cross(v, Anchor(b, p)) < 0.0 <==> u(p) > 0.0
      ensures Between(Limits(v, m), Anchor(b, p)) <==> 0.0 <= t(p) <= 1.0
    {
      BesideMeans(v, m, Anchor(b, p), t(p), u(p));
    }
  }

  function Reverse(v: Vector): Vector {
    Vector(v.end, v.start)
  }

  predicate OffTheLine(v: Vector, anchors: seq<Position>, b: Box) {
    forall p | p in anchors :: Cross(v, Anchor(b, p)) != 0.0
  }

  lemma ReverseCross(v: Vector, a: Point)
    ensures Cross(Reverse(v), a) == -Cross(v, a)
  {
    var dx, dy := v.Dx(), v.Dy();
    assert dx * (a.y - v.end.y) == dx * (a.y - v.start.y) - dx * dy;
    assert dy * (a.x - v.end.x) == dy * (a.x - v.start.x) - dy * dx;
    assert Cross(Reverse(v), a) == -(dx * (a.y - v.end.y)) + dy * (a.x - v.end.x);
  }

  lemma ReverseBetween(v: Vector, m: real, a: Point)
    requires IsMagnitude(v, m) && m != 0.0
    ensures IsMagnitude(Reverse(v), m)
    ensures Between(Limits(Reverse(v), m), a) <==> Between(Limits(v, m), a)
  {
    var r := Reverse(v);
    assert r.Dx() == -v.Dx() && r.Dy() == -v.Dy();
    assert LengthSquared(r) == LengthSquared(v);
    BetweenMeansOnSegment(v, m, a);
    BetweenMeansOnSegment(r, m, a);
    AlongFromEnd(v, a);
    assert Along(r, a) == -(v.Dx() * (a.x - v.end.x)) - v.Dy() * (a.y - v.end.y);
  }

  /** The reading of the reversed line is the flipped one. */
  predicate Flips(v: Vector, m: real, anchors: seq<Position>, b: Box)
    requires m != 0.0
  {
    var r := Reading(v, Limits(v, m), anchors, b);
    Reading(Reverse(v), Limits(Reverse(v), m), anchors, b) == if r.None? then None else Some(!r.value)
  }

  /** The box is ignored, or it does not touch the line, or it has anchors strictly on
      both sides. */
  predicate Flippable(v: Vector, m: real, anchors: seq<Position>, b: Box)
    requires m != 0.0
  {
    || (exists p | p in anchors :: !Between(Limits(v, m), Anchor(b, p)))
    || OffTheLine(v, anchors, b)
    || ((exists p | p in anchors :: Cross(v, Anchor(b, p)) < 0.0) &&
        (exists p | p in anchors :: Cross(v, Anchor(b, p)) > 0.0))
  }

  /** Reversing the line flips the reading of a box if and only if the box is ignored,
      does not touch the line, or has anchors strictly on both sides of it. */
  lemma ReverseFlipsReading(v: Vector, m: real, anchors: seq<Position>, b: Box)
    requires IsMagnitude(v, m) && m != 0.0 && anchors != []
    ensures Flips(v, m, anchors, b) <==> Flippable(v, m, anchors, b)
  {
    hide Between, Limits, Cross, Anchor;
    forall p | p in anchors
      ensures Between(Limits(Reverse(v), m), Anchor(b, p)) <==> Between(Limits(v, m), Anchor(b, p))
      ensures Cross(Reverse(v), Anchor(b, p)) == -Cross(v, Anchor(b, p))
    {
      ReverseBetween(v, m, Anchor(b, p));
      ReverseCross(v, Anchor(b, p));
    }
    assert anchors[0] in anchors;
  }

  /** With a single anchor the flip happens exactly when the anchor is off the
      line: an anchor on it reads as right of both directions. */
  lemma SingleAnchorFlips(v: Vector, m: real, p: Position, b: Box)
    requires m != 0.0
    ensures IsMagnitude(v, m) && Between(Limits(v, m), Anchor(b, p)) ==>
              var r := Reading(v, Limits(v, m), [p], b);
              var r' := Reading(Reverse(v), Limits(Reverse(v), m), [p], b);
              r.Some? && r'.Some? && (r'.value == !r.value <==> Cross(v, Anchor(b, p)) != 0.0)
  {
    if IsMagnitude(v, m) {
      ReverseBetween(v, m, Anchor(b, p));
      ReverseCross(v, Anchor(b, p));
      assert p in [p];
    }
  }
}
