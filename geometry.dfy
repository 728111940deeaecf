/** Integer geometry of the recorder backend: Rust's truncating division,
    `evenize`, and the snapping of a capture region to even coordinates that
    `start_recording` performs before it hands the region to the screen
    grabber (which needs even offsets and sizes). */
module Geometry {
  import opened Text

  /** Rust's `a / b` on signed integers: the quotient rounds toward zero,
      so what `b * q` leaves of `a` is less than `b` in size and has the
      sign of `a`. */
  function TruncDiv(a: int, b: int): (q: int)
    requires b > 0
    ensures a >= 0 ==> 0 <= a - b * q < b
    ensures a < 0 ==> -b < a - b * q <= 0
  {
    if a >= 0 then a / b else -((-a) / b)
  }

  /** Rust's `a % b`: the remainder carries the sign of `a`. */
  function TruncRem(a: int, b: int): (r: int)
    requires b > 0
    ensures a == b * TruncDiv(a, b) + r
    ensures a >= 0 ==> 0 <= r < b
    ensures a < 0 ==> -b < r <= 0
  {
    a - b * TruncDiv(a, b)
  }

  /** `evenize`: an odd value steps down to the even number below it,
      negative odd values included (-3 becomes -4). */
  function Evenize(v: int): (r: int)
    ensures r % 2 == 0
    ensures r == v || r == v - 1
  {
    if TruncRem(v, 2) == 0 then v else v - 1
  }

  /** `Evenize` rounds down to a multiple of two: it is `2 * floor(v / 2)`,
      and no even number at or below `v` is larger. */
  lemma EvenizeIsFloorToEven(v: int, e: int)
    requires e % 2 == 0 && e <= v
    ensures Evenize(v) == 2 * (v / 2)
    ensures e <= Evenize(v) <= v
  {
  }

  lemma EvenizeIdempotent(v: int)
    ensures Evenize(Evenize(v)) == Evenize(v)
    ensures Evenize(v) == v <==> v % 2 == 0
  {
  }

  /** The smallest even number at or above `v`. */
  function CeilEven(v: int): (r: int)
    ensures r % 2 == 0
    ensures r == v || r == v + 1
  {
    if v % 2 == 0 then v else v + 1
  }

  /** `CaptureRegion` of the recording request: origin and size in pixels. */
  datatype CaptureRegion = CaptureRegion(x: int, y: int, width: int, height: int)

  predicate EvenAligned(r: CaptureRegion)
  {
    r.x % 2 == 0 && r.y % 2 == 0 && r.width % 2 == 0 && r.height % 2 == 0
  }

  predicate NonEmpty(r: CaptureRegion)
  {
    r.width > 0 && r.height > 0
  }

  /** `inner` lies inside `outer`. */
  predicate Within(inner: CaptureRegion, outer: CaptureRegion)
  {
    && outer.x <= inner.x && inner.x + inner.width <= outer.x + outer.width
    && outer.y <= inner.y && inner.y + inner.height <= outer.y + outer.height
  }

  /** The largest even-aligned rectangle inside `r`, in closed form: the left
      and top edges move up to the next even coordinate, the right and bottom
      edges down to the previous one. */
  function SnapToEven(r: CaptureRegion): CaptureRegion
  {
    var x, y := CeilEven(r.x), CeilEven(r.y);
    CaptureRegion(x, y, Evenize(r.x + r.width) - x, Evenize(r.y + r.height) - y)
  }

  /** The snapped rectangle is even-aligned, and any even-aligned rectangle
      inside `r` is inside it too; when `r` has positive size it lies inside `r`. */
  lemma SnapToEvenIsLargest(r: CaptureRegion, other: CaptureRegion)
    requires EvenAligned(other) && NonEmpty(other) && Within(other, r)
    ensures EvenAligned(SnapToEven(r))
    ensures Within(other, SnapToEven(r))
    ensures NonEmpty(SnapToEven(r)) && Within(SnapToEven(r), r)
  {
    SnapInside(r);
    EvenPlus(other.x, other.width);
    EvenPlus(other.y, other.height);
    EvenizeIsFloorToEven(r.x + r.width, other.x + other.width);
    EvenizeIsFloorToEven(r.y + r.height, other.y + other.height);
  }

  /** Rust's `v % 2 != 0` picks out the odd values, negative ones included. */
  lemma OddIsTruncOdd(v: int)
    ensures TruncRem(v, 2) != 0 <==> v % 2 == 1
    ensures Evenize(v) == v - v % 2
  {
  }

  /** A request of no positive size has no even-aligned part of positive size. */
  lemma SnapOfEmpty(r: CaptureRegion)
    requires r.width <= 0 || r.height <= 0
    ensures !NonEmpty(SnapToEven(r))
  {
  }

  /** Adding an even number keeps the parity. */
  lemma EvenPlus(a: int, b: int)
    requires a % 2 == 0
    ensures (a + b) % 2 == b % 2
    ensures (b - a) % 2 == b % 2
  {
    var k := a / 2;
    assert a == 2 * k;
    assert a + b == b + 2 * k;
    assert b - a == b + 2 * (-k);
  }

  /** A non-empty snapped region is even-aligned and inside the request. */
  lemma SnapInside(r: CaptureRegion)
    ensures EvenAligned(SnapToEven(r))
    ensures NonEmpty(SnapToEven(r)) ==> Within(SnapToEven(r), r)
  {
    EvenPlus(CeilEven(r.x), Evenize(r.x + r.width));
    EvenPlus(CeilEven(r.y), Evenize(r.y + r.height));
  }

  /** The first step of `start_recording` along one axis: an odd origin
      moves up by one and the size shrinks with it, so the origin becomes
      the next even coordinate and the far edge stays where it was. */
  method SnapOrigin(origin: int, size: int) returns (o: int, s: int)
    ensures o == CeilEven(origin) && o + s == origin + size
  {
    OddIsTruncOdd(origin);
    o, s := origin, size;
    if TruncRem(o, 2) != 0 {
      o := o + 1;
      s := s - 1;
    }
  }

  /** The second step along one axis: an odd size shrinks by one, which is
      `evenize` of the size. */
  method SnapSize(size: int) returns (s: int)
    ensures s == Evenize(size) && s % 2 == 0
  {
    s := size;
    if TruncRem(s, 2) != 0 {
      s := s - 1;
    }
  }

  /** After the origin moved to an even coordinate, evening the size puts
      the far edge on the even coordinate at or below the original one. */
  lemma AxisSnap(origin: int, size: int)
    ensures CeilEven(origin) + Evenize(origin + size - CeilEven(origin)) == Evenize(origin + size)
  {
    var o, s := CeilEven(origin), origin + size - CeilEven(origin);
    OddIsTruncOdd(s);
    OddIsTruncOdd(origin + size);
    EvenPlus(o, s);
  }

  /** The region normalisation of `start_recording`: a missing region and a
      region with no even-aligned part of positive size are refused; otherwise
      the result is the largest even-aligned rectangle inside the request. */
  method NormalizeRegion(request: Option<CaptureRegion>) returns (result: Result<CaptureRegion>)
    ensures request.None? ==> result == Err("region_required")
    ensures request.Some? && NonEmpty(SnapToEven(request.value)) ==> result == Ok(SnapToEven(request.value))
    ensures request.Some? && !NonEmpty(SnapToEven(request.value)) ==> result == Err("invalid_region")
    ensures result.Ok? ==> EvenAligned(result.value) && NonEmpty(result.value) && Within(result.value, request.value)
  {
    if request.None? {
      return Err("region_required");
    }
    var region := request.value;
    var x, y, width, height := region.x, region.y, region.width, region.height;
    if width <= 0 || height <= 0 {
      SnapOfEmpty(region);
      return Err("invalid_region");
    }
    x, width := SnapOrigin(x, width);
    y, height := SnapOrigin(y, height);
    width := SnapSize(width);
    height := SnapSize(height);
    AxisSnap(region.x, region.width);
    AxisSnap(region.y, region.height);
    SnapInside(region);
    if width <= 0 || height <= 0 {
      return Err("invalid_region");
    }
    result := Ok(CaptureRegion(x, y, width, height));
  }
}
