/** Points, axis-aligned rectangles and time spans over exact reals.

    The game's `FloatRect` helper class is not part of this model; its setters are
    assumed to TRANSLATE the rectangle (they move one edge to the given coordinate and
    keep width and height), its movers to translate by a delta, and its intersection
    test to be the strict-overlap test of SFML rectangles. */
module Geometry {

  datatype Vec = Vec(x: real, y: real) {
    function Plus(o: Vec): Vec { Vec(x + o.x, y + o.y) }
    function Scale(k: real): Vec { Vec(x * k, y * k) }
  }

  const Zero: Vec := Vec(0.0, 0.0)

  datatype Rect = Rect(left: real, top: real, width: real, height: real) {

    function Right(): real { left + width }
    function Bottom(): real { top + height }
    function CenterX(): real { left + width / 2.0 }
    function CenterY(): real { top + height / 2.0 }
    function Center(): Vec { Vec(CenterX(), CenterY()) }

    /** Translate so that the left edge is at `v`. */
    function SetLeft(v: real): (r: Rect)
      ensures r.left == v && r.top == top && r.width == width && r.height == height
    {
      Rect(v, top, width, height)
    }

    /** Translate so that the right edge is at `v`. */
    function SetRight(v: real): (r: Rect)
      ensures r.Right() == v && r.top == top && r.width == width && r.height == height
    {
      Rect(v - width, top, width, height)
    }

    /** Translate so that the top edge is at `v`. */
    function SetTop(v: real): (r: Rect)
      ensures r.top == v && r.left == left && r.width == width && r.height == height
    {
      Rect(left, v, width, height)
    }

    /** Translate so that the bottom edge is at `v`. */
    function SetBottom(v: real): (r: Rect)
      ensures r.Bottom() == v && r.left == left && r.width == width && r.height == height
    {
      Rect(left, v - height, width, height)
    }

    /** Translate horizontally by `d`. */
    function MoveLeft(d: real): (r: Rect)
      ensures r.left == left + d && r.top == top && r.width == width && r.height == height
    {
      Rect(left + d, top, width, height)
    }

    /** Translate vertically by `d`. */
    function MoveTop(d: real): (r: Rect)
      ensures r.top == top + d && r.left == left && r.width == width && r.height == height
    {
      Rect(left, top + d, width, height)
    }

    function TopLeft(): Vec { Vec(left, top) }
  }

  /** The rectangle placed at `position` with extent `size`. */
  function RectAt(position: Vec, size: Vec): Rect
  {
    Rect(position.x, position.y, size.x, size.y)
  }

  /** Two rectangles intersect when their interiors overlap on both axes;
      rectangles that only share an edge do not intersect. */
  predicate Intersects(a: Rect, b: Rect)
  {
    a.left < b.Right() && b.left < a.Right() && a.top < b.Bottom() && b.top < a.Bottom()
  }

  lemma IntersectsSymmetric(a: Rect, b: Rect)
    ensures Intersects(a, b) <==> Intersects(b, a)
  {
  }

  /** `std::floor` followed by a cast to an integer. */
  function Floor(x: real): (r: int)
    ensures r as real <= x < r as real + 1.0
  {
    x.Floor
  }

  /** `std::ceil` followed by a cast to an integer. */
  function Ceil(x: real): (r: int)
    ensures r as real - 1.0 < x <= r as real
  {
    -((-x).Floor)
  }

  /** A cast of a float to an integer type, which truncates toward zero. */
  function Truncate(x: real): (r: int)
    ensures x >= 0.0 ==> 0 <= r && r as real <= x < r as real + 1.0
    ensures x < 0.0 ==> r <= 0 && r as real - 1.0 < x <= r as real
  {
    if x >= 0.0 then x.Floor else -((-x).Floor)
  }

  /** `sf::seconds`: a time span counts whole microseconds, so the conversion from
      seconds truncates. */
  function Seconds(x: real): (r: real)
    ensures x >= 0.0 ==> 0.0 <= x - r < 1.0 / 1000000.0
  {
    Truncate(x * 1000000.0) as real / 1000000.0
  }

  /** The main loop's fixed step, `sf::seconds(1.0f / 60.0f)`. */
  const TimePerFrame: real := Seconds(1.0 / 60.0)

  /** The sixtieth of a second becomes 16666 microseconds. */
  lemma TimePerFrameValue()
    ensures TimePerFrame == 16666.0 / 1000000.0
  {
    assert 16666.0 <= 1000000.0 / 60.0 < 16667.0;
  }
}
