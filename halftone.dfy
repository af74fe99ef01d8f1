/**
 * The halftone screen of `HalftoneProcessor`: a grid of candidate dot centres
 * laid over the canvas at the screen angle. Each grid point is rotated back
 * into image coordinates, the grayscale pixel there is sampled, and its value
 * is mapped linearly to a dot radius. A circle is emitted at the grid point
 * when the radius exceeds 0.5.
 *
 * The model's output is the ordered list of emitted dots `(x, y, r)`; the
 * rasterisation of each circle onto the white canvas is not modelled.
 * Geometry is over `real`; `math.cos`/`math.sin` are supplied as a `Trig`.
 */
module Halftone {
  import opened Wrappers
  import opened RangeWalk

  /** A point of the canvas plane. */
  datatype Point = Point(x: real, y: real)

  /** The caller's `math.cos` and `math.sin`, taking radians. */
  datatype Trig = Trig(cos: real -> real, sin: real -> real)

  /** A grayscale image: `pixels[y][x]`, like the numpy array `img_array[y, x]`. */
  datatype Gray = Gray(width: nat, height: nat, pixels: seq<seq<int>>)

  /** Rows and columns match the size, and every pixel is an 8-bit value. */
  predicate ValidGray(g: Gray) {
    && |g.pixels| == g.height
    && forall y :: 0 <= y < g.height ==>
         |g.pixels[y]| == g.width && forall x :: 0 <= x < g.width ==> 0 <= g.pixels[y][x] <= 255
  }

  /** The images the program can hold: every pixel of a grayscale conversion is present. */
  type Image = g: Gray | ValidGray(g) witness Gray(0, 0, [])

  /** One emitted circle: its centre on the integer grid and its radius. */
  datatype Dot = Dot(x: int, y: int, r: real) {

    /** The box `[x - r, y - r, x + r, y + r]` handed to `draw.ellipse`. */
    function BBox(): (b: seq<real>)
      ensures |b| == 4
      ensures b[2] - b[0] == 2.0 * r && b[3] - b[1] == 2.0 * r
      ensures (b[0] + b[2]) / 2.0 == x as real && (b[1] + b[3]) / 2.0 == y as real
    {
      [x as real - r, y as real - r, x as real + r, y as real + r]
    }
  }

  /** `math.pi` as the decimal literal Python prints for it. */
  const Pi: real := 3.141592653589793

  /** `math.radians`. */
  function Radians(deg: real): real {
    deg * Pi / 180.0
  }

  // ---------------------------------------------------------------------------
  // map_value

  /** `map_value`: the affine map sending `minA` to `minB` and `maxA` to `maxB`. */
  function MapValue(value: real, minA: real, maxA: real, minB: real, maxB: real): (r: real)
    requires maxA != minA
    ensures value == minA ==> r == minB
    ensures value == maxA ==> r == maxB
  {
    var t := (value - minA) / (maxA - minA);
    DivSelf(maxA - minA);
    assert value == maxA ==> t == (maxA - minA) / (maxA - minA);
    t * (maxB - minB) + minB
  }

  lemma DivSelf(d: real)
    requires d != 0.0
    ensures d / d == 1.0
  {
  }

  lemma UnitFraction(n: real, d: real)
    requires 0.0 <= n <= d && d > 0.0
    ensures 0.0 <= n / d <= 1.0
  {
    var t := n / d;
    assert t * d == n;
    assert (1.0 - t) * d == d - n;
    assert (1.0 - t) * d >= 0.0;
  }

  lemma AffineBetween(t: real, lo: real, hi: real)
    requires 0.0 <= t <= 1.0
    ensures lo <= hi ==> lo <= t * (hi - lo) + lo <= hi
    ensures hi <= lo ==> hi <= t * (hi - lo) + lo <= lo
  {
    var w := if lo <= hi then hi - lo else lo - hi;
    assert t * w >= 0.0;
    assert w - t * w == (1.0 - t) * w;
    assert (1.0 - t) * w >= 0.0;
    assert t * (hi - lo) == if lo <= hi then t * w else -(t * w);
  }

  /** A value inside `[minA, maxA]` is sent between `minB` and `maxB`, whichever way round they are. */
  lemma MapValueBetween(value: real, minA: real, maxA: real, minB: real, maxB: real)
    requires minA < maxA && minA <= value <= maxA
    ensures minB <= maxB ==> minB <= MapValue(value, minA, maxA, minB, maxB) <= maxB
    ensures maxB <= minB ==> maxB <= MapValue(value, minA, maxA, minB, maxB) <= minB
  {
    var t := (value - minA) / (maxA - minA);
    assert MapValue(value, minA, maxA, minB, maxB) == t * (maxB - minB) + minB;
    UnitFraction(value - minA, maxA - minA);
    AffineBetween(t, minB, maxB);
  }

  /** A larger value is mapped further towards `maxB`. */
  lemma MapValueMonotone(u: real, v: real, minA: real, maxA: real, minB: real, maxB: real)
    requires minA < maxA && u <= v
    ensures minB <= maxB ==> MapValue(u, minA, maxA, minB, maxB) <= MapValue(v, minA, maxA, minB, maxB)
    ensures maxB <= minB ==> MapValue(v, minA, maxA, minB, maxB) <= MapValue(u, minA, maxA, minB, maxB)
  {
    var d := maxA - minA;
    var tu, tv := (u - minA) / d, (v - minA) / d;
    DivMonotone(u - minA, v - minA, d);
    var w := maxB - minB;
    var mu, mv := MapValue(u, minA, maxA, minB, maxB), MapValue(v, minA, maxA, minB, maxB);
    assert mu == tu * w + minB;
    assert mv == tv * w + minB;
    ScaleMonotone(tu, tv, w);
    if minB <= maxB {
      assert tu * w <= tv * w;
    } else {
      assert tv * w <= tu * w;
    }
  }

  lemma DivMonotone(a: real, b: real, d: real)
    requires d > 0.0 && a <= b
    ensures a / d <= b / d
  {
    assert b / d - a / d == (b - a) / d;
  }

  lemma ScaleMonotone(a: real, b: real, w: real)
    requires a <= b
    ensures w >= 0.0 ==> a * w <= b * w
    ensures w <= 0.0 ==> b * w <= a * w
  {
    assert b * w - a * w == (b - a) * w;
  }

  // ---------------------------------------------------------------------------
  // rotate_point_about_position

  /** `rotate_point_about_position`: rotates `p` about `center` by `angle` radians. */
  function RotateAbout(p: Point, center: Point, angle: real, trig: Trig): (q: Point)
    ensures p == center ==> q == center
  {
    var c := trig.cos(angle);
    var s := trig.sin(angle);
    Point((p.x - center.x) * c - (p.y - center.y) * s + center.x,
          (p.x - center.x) * s + (p.y - center.y) * c + center.y)
  }

  /** With cos = 1 and sin = 0 the rotation is the identity. */
  lemma RotateIdentity(p: Point, center: Point, angle: real, trig: Trig)
    requires trig.cos(angle) == 1.0 && trig.sin(angle) == 0.0
    ensures RotateAbout(p, center, angle, trig) == p
  {
  }

  /** Rotating by `a` and then by `-a` gives the point back when cos is even, sin is odd and cos² + sin² = 1. */
  lemma RotateInverse(p: Point, center: Point, a: real, trig: Trig)
    requires trig.cos(-a) == trig.cos(a) && trig.sin(-a) == -trig.sin(a)
    requires trig.cos(a) * trig.cos(a) + trig.sin(a) * trig.sin(a) == 1.0
    ensures RotateAbout(RotateAbout(p, center, a, trig), center, -a, trig) == p
  {
    var c, s := trig.cos(a), trig.sin(a);
    var dx, dy := p.x - center.x, p.y - center.y;
    var q := RotateAbout(p, center, a, trig);
    var ex, ey := q.x - center.x, q.y - center.y;
    assert ex == dx * c - dy * s;
    assert ey == dx * s + dy * c;
    var back := RotateAbout(q, center, -a, trig);
    assert back.x - center.x == ex * c + ey * s;
    assert back.y - center.y == ey * c - ex * s;
    calc {
      ex * c + ey * s;
      (dx * c - dy * s) * c + (dx * s + dy * c) * s;
      dx * (c * c + s * s);
      dx;
    }
    calc {
      ey * c - ex * s;
      (dx * s + dy * c) * c - (dx * c - dy * s) * s;
      dy * (c * c + s * s);
      dy;
    }
  }

  // ---------------------------------------------------------------------------
  // the rotated bounding box

  function Corners(w: nat, h: nat): seq<Point> {
    [Point(0.0, 0.0), Point(w as real, 0.0), Point(w as real, h as real), Point(0.0, h as real)]
  }

  function Center(w: nat, h: nat): Point {
    Point(w as real / 2.0, h as real / 2.0)
  }

  /** The four canvas corners rotated about the centre, in the order (0,0), (W,0), (W,H), (0,H). */
  function RotatedCorners(w: nat, h: nat, angle: real, trig: Trig): (rc: seq<Point>)
    ensures |rc| == 4
  {
    var cs := Corners(w, h);
    seq(4, i requires 0 <= i < 4 => RotateAbout(cs[i], Center(w, h), angle, trig))
  }

  /** The corner list built by appending one rotated corner at a time. */
  method RotateCorners(w: nat, h: nat, angle: real, trig: Trig) returns (rc: seq<Point>)
    ensures rc == RotatedCorners(w, h, angle, trig)
  {
    var corners := Corners(w, h);
    var center := Center(w, h);
    rc := [];
    for i := 0 to 4
      invariant |rc| == i
      invariant forall k :: 0 <= k < i ==> rc[k] == RotateAbout(corners[k], center, angle, trig)
    {
      var rotated := RotateAbout(corners[i], center, angle, trig);
      rc := rc + [rotated];
    }
  }

  /** Python's `int(v)` on a float: truncation toward zero. */
  function Trunc(v: real): (t: int)
    ensures v >= 0.0 ==> t as real <= v < t as real + 1.0
    ensures v < 0.0 ==> t as real - 1.0 < v <= t as real
  {
    if v >= 0.0 then v.Floor else -((-v).Floor)
  }

  lemma TruncMonotone(a: real, b: real)
    requires a <= b
    ensures Trunc(a) <= Trunc(b)
  {
  }

  function Min4(a: real, b: real, c: real, d: real): (m: real)
    ensures m <= a && m <= b && m <= c && m <= d
    ensures m == a || m == b || m == c || m == d
  {
    var ab := if a <= b then a else b;
    var cd := if c <= d then c else d;
    if ab <= cd then ab else cd
  }

  function Max4(a: real, b: real, c: real, d: real): (m: real)
    ensures m >= a && m >= b && m >= c && m >= d
    ensures m == a || m == b || m == c || m == d
  {
    var ab := if a >= b then a else b;
    var cd := if c >= d then c else d;
    if ab >= cd then ab else cd
  }

  /** Integer grid bounds `min_x, min_y, max_x, max_y`. */
  datatype Bounds = Bounds(minX: int, minY: int, maxX: int, maxY: int)

  /** `int(min(...))` and `int(max(...))` of the rotated corners' coordinates. */
  function BoundsOf(rc: seq<Point>): (b: Bounds)
    requires |rc| == 4
    ensures b.minX <= b.maxX && b.minY <= b.maxY
  {
    var loX := Min4(rc[0].x, rc[1].x, rc[2].x, rc[3].x);
    var hiX := Max4(rc[0].x, rc[1].x, rc[2].x, rc[3].x);
    var loY := Min4(rc[0].y, rc[1].y, rc[2].y, rc[3].y);
    var hiY := Max4(rc[0].y, rc[1].y, rc[2].y, rc[3].y);
    TruncMonotone(loX, hiX);
    TruncMonotone(loY, hiY);
    Bounds(Trunc(loX), Trunc(loY), Trunc(hiX), Trunc(hiY))
  }

  function ScreenBounds(w: nat, h: nat, angle: real, trig: Trig): Bounds {
    BoundsOf(RotatedCorners(w, h, angle, trig))
  }

  /** At angle 0 the grid bounds are exactly the canvas: (0, 0, W, H). */
  lemma ScreenBoundsAtZero(w: nat, h: nat, trig: Trig)
    requires trig.cos(0.0) == 1.0 && trig.sin(0.0) == 0.0
    ensures ScreenBounds(w, h, Radians(0.0), trig) == Bounds(0, 0, w, h)
  {
    var rc := RotatedCorners(w, h, Radians(0.0), trig);
    forall i | 0 <= i < 4 ensures rc[i] == Corners(w, h)[i] {
      RotateIdentity(Corners(w, h)[i], Center(w, h), Radians(0.0), trig);
    }
  }

  // ---------------------------------------------------------------------------
  // one grid cell

  /** `generate_halftone` keeps centres on the canvas; `generate_traditional_halftone` allows a `dot_size` margin. */
  datatype Variant = Basic | Traditional

  /** The screen parameters of one call: angle in radians, grid step, maximum dot diameter. */
  datatype Screen = Screen(angle: real, trig: Trig, dotSize: int, step: int, invert: bool, variant: Variant)

  /** Pixel value to radius: dark pixels give large dots unless inverted. */
  function Radius(pixel: int, dotSize: int, invert: bool): real {
    var half := dotSize as real / 2.0;
    if invert then MapValue(pixel as real, 0.0, 255.0, 0.0, half)
    else MapValue(pixel as real, 0.0, 255.0, half, 0.0)
  }

  /** `max(0, min(size - 1, int(v)))`: always a valid index, and just `floor(v)` for a coordinate on the canvas. */
  function PixelIndex(v: real, size: nat): (i: int)
    ensures size >= 1 ==> 0 <= i < size
    ensures 0.0 <= v < size as real ==> i == v.Floor
  {
    var lo := if size - 1 < Trunc(v) then size - 1 else Trunc(v);
    if 0 < lo then lo else 0
  }

  /** The grid point rotated back to image coordinates. */
  function SamplePoint(img: Image, x: int, y: int, scr: Screen): Point {
    RotateAbout(Point(x as real, y as real), Center(img.width, img.height), -scr.angle, scr.trig)
  }

  /** The negation of the source's out-of-bounds test on the sample point. */
  predicate OnCanvas(p: Point, w: nat, h: nat) {
    0.0 <= p.x < w as real && 0.0 <= p.y < h as real
  }

  /** The centres each variant is willing to draw. */
  predicate Accepts(variant: Variant, x: int, y: int, w: nat, h: nat, dotSize: int) {
    match variant
    case Basic => 0 <= x < w && 0 <= y < h
    case Traditional => x >= -dotSize && y >= -dotSize && x <= w + dotSize && y <= h + dotSize
  }

  /**
   * What the grid cell at `(x, y)` yields, if anything. The source clamps the
   * truncated coordinates into the image; on the canvas that clamp is the
   * floor (`PixelIndex`), which is what is written here.
   */
  function CellDot(img: Image, x: int, y: int, scr: Screen): (d: Option<Dot>)
    ensures d.Some? ==> d.value.x == x && d.value.y == y
  {
    var sp := SamplePoint(img, x, y, scr);
    if !OnCanvas(sp, img.width, img.height) then None
    else
      var pixel := img.pixels[sp.y.Floor][sp.x.Floor];
      var r := Radius(pixel, scr.dotSize, scr.invert);
      if r > 0.5 && Accepts(scr.variant, x, y, img.width, img.height, scr.dotSize) then Some(Dot(x, y, r))
      else None
  }

  // ---------------------------------------------------------------------------
  // the grid walk

  /** The loop body as a function of the grid point `(x, y)`. */
  function Cells(img: Image, scr: Screen): (int, int) -> Option<Dot> {
    (x, y) => CellDot(img, x, y, scr)
  }

  /** The dots the nested loops over `range(min_y, max_y, step)` and `range(min_x, max_x, step)` draw, in order. */
  function ScreenDots(img: Image, scr: Screen): seq<Dot> {
    var b := ScreenBounds(img.width, img.height, scr.angle, scr.trig);
    Walk2(Cells(img, scr), b.minX, b.maxX, b.minY, b.maxY, scr.step)
  }

  /** `f` is the loop body of row `y` written as a function of the column. */
  ghost predicate IsRowBody(f: int -> Option<Dot>, img: Image, scr: Screen, y: int) {
    forall u {:trigger CellDot(img, u, y, scr)} :: f(u) == CellDot(img, u, y, scr)
  }

  lemma CellsRowBody(img: Image, scr: Screen, y: int)
    ensures IsRowBody(RowOf(Cells(img, scr), y), img, scr, y)
  {
    forall u ensures RowOf(Cells(img, scr), y)(u) == CellDot(img, u, y, scr) {
      assert RowOf(Cells(img, scr), y)(u) == Cells(img, scr)(u, y);
    }
  }

  /**
   * The body of the inner loop for one grid point: rotate it back, skip it
   * when it falls off the image, clamp and sample, map to a radius, and keep
   * the dot when it is larger than half a pixel and its centre is accepted.
   */
  method SampleCell(img: Image, x: int, y: int, scr: Screen, ghost f: int -> Option<Dot>) returns (d: Option<Dot>)
    requires IsRowBody(f, img, scr, y)
    ensures d == f(x)
  {
    var w, h := img.width, img.height;
    var sp := RotateAbout(Point(x as real, y as real), Center(w, h), -scr.angle, scr.trig);
    if !OnCanvas(sp, w, h) {
      assert CellDot(img, x, y, scr) == None;
      return None;
    }
    var px, py := PixelIndex(sp.x, w), PixelIndex(sp.y, h);
    var r := Radius(img.pixels[py][px], scr.dotSize, scr.invert);
    if r > 0.5 && Accepts(scr.variant, x, y, w, h, scr.dotSize) {
      d := Some(Dot(x, y, r));
    } else {
      d := None;
    }
    assert d == CellDot(img, x, y, scr);
  }

  /** The inner loop over the columns `range(min_x, max_x, step)` of row `y`: the dots it draws, left to right. */
  method RenderRow(img: Image, scr: Screen, b: Bounds, y: int, ghost f: int -> Option<Dot>) returns (row: seq<Dot>)
    requires IsRowBody(f, img, scr, y)
    ensures row == Walk(f, b.minX, b.maxX, scr.step)
  {
    row := [];
    var x := b.minX;
    while InRange(x, b.maxX, scr.step)
      invariant row + Walk(f, x, b.maxX, scr.step) == Walk(f, b.minX, b.maxX, scr.step)
      decreases if scr.step > 0 then b.maxX - x else x - b.maxX
    {
      var d := SampleCell(img, x, y, scr, f);
      WalkAdvance(f, row, Walk(f, b.minX, b.maxX, scr.step), x, b.maxX, scr.step);
      ghost var before := row;
      if d.Some? {
        row := row + [d.value];
      }
      assert row == before + Emitted(d);
      x := x + scr.step;
    }
  }

  /** The outer loop over the rows `range(min_y, max_y, step)` of the rotated bounds, collecting the dots drawn in order. */
  method RenderScreen(img: Image, scr: Screen) returns (dots: seq<Dot>)
    requires scr.step != 0
    ensures dots == ScreenDots(img, scr)
  {
    var rc := RotateCorners(img.width, img.height, scr.angle, scr.trig);
    var b := BoundsOf(rc);
    ghost var g := Cells(img, scr);
    dots := [];
    var y := b.minY;
    while InRange(y, b.maxY, scr.step)
      invariant dots + Walk2(g, b.minX, b.maxX, y, b.maxY, scr.step) == ScreenDots(img, scr)
      decreases if scr.step > 0 then b.maxY - y else y - b.maxY
    {
      CellsRowBody(img, scr, y);
      var row := RenderRow(img, scr, b, y, RowOf(g, y));
      Walk2Advance(g, dots, ScreenDots(img, scr), b.minX, b.maxX, y, b.maxY, scr.step);
      dots := dots + row;
      y := y + scr.step;
    }
  }

  // ---------------------------------------------------------------------------
  // the two generators

  /** What a call reports: the resolved parameters and the dots drawn, or the error. */
  datatype HalftoneResult =
    | Rendered(mode: string, dotSize: int, dotResolution: int, screenAngle: real, invert: bool,
               threshold: Option<int>, width: nat, height: nat, dots: seq<Dot>)
    | Failed(mode: string, error: string)

  /** The `ValueError` text of `range()` with a zero step. */
  const ZeroStepError: string := "range() arg 3 must not be zero"

  /**
   * `generate_halftone`: the legacy `dot_spacing` and `angle`, when given,
   * override `dot_resolution` and `screen_angle`; only centres on the canvas are drawn.
   */
  method GenerateHalftone(img: Image, trig: Trig, dotSize: int, dotResolution: int, screenAngle: real,
                          threshold: int, invert: bool, dotSpacing: Option<int>, angle: Option<real>)
    returns (res: HalftoneResult)
    ensures var step := dotSpacing.GetOr(dotResolution);
            var deg := angle.GetOr(screenAngle);
            res == if step == 0 then Failed("halftone", ZeroStepError)
                   else Rendered("halftone", dotSize, step, deg, invert, Some(threshold), img.width, img.height,
                                 ScreenDots(img, Screen(Radians(deg), trig, dotSize, step, invert, Basic)))
  {
    var step := dotResolution;
    var deg := screenAngle;
    if dotSpacing.Some? {
      step := dotSpacing.value;
    }
    if angle.Some? {
      deg := angle.value;
    }
    if step == 0 {
      return Failed("halftone", ZeroStepError);
    }
    var dots := RenderScreen(img, Screen(Radians(deg), trig, dotSize, step, invert, Basic));
    res := Rendered("halftone", dotSize, step, deg, invert, Some(threshold), img.width, img.height, dots);
  }

  /**
   * `generate_traditional_halftone`: a missing `dot_resolution` defaults to
   * `dot_size`; centres up to `dot_size` outside the canvas are drawn.
   */
  method GenerateTraditionalHalftone(img: Image, trig: Trig, dotSize: int, dotResolution: Option<int>,
                                     screenAngle: real, invert: bool)
    returns (res: HalftoneResult)
    ensures var step := dotResolution.GetOr(dotSize);
            res == if step == 0 then Failed("traditional_halftone", ZeroStepError)
                   else Rendered("traditional_halftone", dotSize, step, screenAngle, invert, None, img.width, img.height,
                                 ScreenDots(img, Screen(Radians(screenAngle), trig, dotSize, step, invert, Traditional)))
  {
    var step := if dotResolution.None? then dotSize else dotResolution.value;
    if step == 0 {
      return Failed("traditional_halftone", ZeroStepError);
    }
    var dots := RenderScreen(img, Screen(Radians(screenAngle), trig, dotSize, step, invert, Traditional));
    res := Rendered("traditional_halftone", dotSize, step, screenAngle, invert, None, img.width, img.height, dots);
  }

  // ---------------------------------------------------------------------------
  // the radius map

  /** Every radius lies between 0 and half the dot size. */
  lemma RadiusRange(pixel: int, dotSize: int, invert: bool)
    requires 0 <= pixel <= 255 && dotSize >= 0
    ensures 0.0 <= Radius(pixel, dotSize, invert) <= dotSize as real / 2.0
  {
    MapValueBetween(pixel as real, 0.0, 255.0, 0.0, dotSize as real / 2.0);
    MapValueBetween(pixel as real, 0.0, 255.0, dotSize as real / 2.0, 0.0);
  }

  /** Black gives the full radius and white none; inverting swaps them. */
  lemma RadiusEnds(dotSize: int)
    ensures Radius(0, dotSize, false) == dotSize as real / 2.0 && Radius(255, dotSize, false) == 0.0
    ensures Radius(0, dotSize, true) == 0.0 && Radius(255, dotSize, true) == dotSize as real / 2.0
  {
  }

  /** The inverted radius is what the plain radius leaves of half the dot size. */
  lemma RadiusInvertSum(pixel: int, dotSize: int)
    ensures Radius(pixel, dotSize, true) + Radius(pixel, dotSize, false) == dotSize as real / 2.0
  {
    var t := (pixel as real - 0.0) / (255.0 - 0.0);
    var half := dotSize as real / 2.0;
    assert Radius(pixel, dotSize, true) == t * half;
    assert Radius(pixel, dotSize, false) == t * (0.0 - half) + half;
  }

  /** Darker pixels give dots at least as large, and the other way round when inverted. */
  lemma RadiusMonotone(p: int, q: int, dotSize: int)
    requires p <= q && dotSize >= 0
    ensures Radius(q, dotSize, false) <= Radius(p, dotSize, false)
    ensures Radius(p, dotSize, true) <= Radius(q, dotSize, true)
  {
    MapValueMonotone(p as real, q as real, 0.0, 255.0, dotSize as real / 2.0, 0.0);
    MapValueMonotone(p as real, q as real, 0.0, 255.0, 0.0, dotSize as real / 2.0);
  }

  /** An emitted dot has radius above half a pixel and at most half the dot size. */
  lemma CellDotRadius(img: Image, x: int, y: int, scr: Screen)
    requires scr.dotSize >= 0
    ensures CellDot(img, x, y, scr).Some? ==>
              0.5 < CellDot(img, x, y, scr).value.r <= scr.dotSize as real / 2.0
  {
    var sp := SamplePoint(img, x, y, scr);
    if OnCanvas(sp, img.width, img.height) {
      RadiusRange(img.pixels[sp.y.Floor][sp.x.Floor], scr.dotSize, scr.invert);
    }
  }

  // ---------------------------------------------------------------------------
  // properties of the generated screen

  /**
   * Every drawn dot is the one its own grid cell yields: its radius is above
   * 0.5 and its centre is inside the area the variant accepts.
   */
  lemma ScreenDotsSound(img: Image, scr: Screen)
    ensures forall d :: d in ScreenDots(img, scr) ==>
              && CellDot(img, d.x, d.y, scr) == Some(d)
              && d.r > 0.5
              && Accepts(scr.variant, d.x, d.y, img.width, img.height, scr.dotSize)
  {
    var b := ScreenBounds(img.width, img.height, scr.angle, scr.trig);
    var g := Cells(img, scr);
    Walk2Sound(g, b.minX, b.maxX, b.minY, b.maxY, scr.step);
    forall d | d in ScreenDots(img, scr) ensures CellDot(img, d.x, d.y, scr) == Some(d) {
      var u, w :| g(u, w) == Some(d) &&
        (scr.step > 0 ==> OnGrid(u, b.minX, scr.step) && u < b.maxX && OnGrid(w, b.minY, scr.step) && w < b.maxY);
      assert CellDot(img, u, w, scr) == Some(d);
    }
  }

  /** The basic generator only draws centres on the canvas; the traditional one within `dot_size` of it. */
  lemma ScreenDotsInArea(img: Image, scr: Screen)
    ensures scr.variant == Basic ==>
              forall d :: d in ScreenDots(img, scr) ==> 0 <= d.x < img.width && 0 <= d.y < img.height
    ensures scr.variant == Traditional ==>
              forall d :: d in ScreenDots(img, scr) ==>
                -scr.dotSize <= d.x <= img.width + scr.dotSize && -scr.dotSize <= d.y <= img.height + scr.dotSize
  {
    ScreenDotsSound(img, scr);
  }

  /** No dot is larger than `dot_size` across. */
  lemma ScreenDotsRadius(img: Image, scr: Screen)
    requires scr.dotSize >= 0
    ensures forall d :: d in ScreenDots(img, scr) ==> 0.5 < d.r <= scr.dotSize as real / 2.0
  {
    ScreenDotsSound(img, scr);
    forall d | d in ScreenDots(img, scr) ensures 0.5 < d.r <= scr.dotSize as real / 2.0 {
      CellDotRadius(img, d.x, d.y, scr);
    }
  }

  /** The dot's centre as the row and column keys of the reading order. */
  function DotX(d: Dot): int { d.x }
  function DotY(d: Dot): int { d.y }

  /**
   * With a positive step the centres sit on the grid `min + k * step` inside
   * the rotated bounds, and come in reading order (so none is drawn twice).
   */
  lemma ScreenDotsOnGrid(img: Image, scr: Screen)
    requires scr.step > 0
    ensures var b := ScreenBounds(img.width, img.height, scr.angle, scr.trig);
            forall d :: d in ScreenDots(img, scr) ==>
              OnGrid(d.x, b.minX, scr.step) && d.x < b.maxX && OnGrid(d.y, b.minY, scr.step) && d.y < b.maxY
    ensures InReadingOrder(ScreenDots(img, scr), DotX, DotY)
  {
    var b := ScreenBounds(img.width, img.height, scr.angle, scr.trig);
    var g := Cells(img, scr);
    Walk2Sound(g, b.minX, b.maxX, b.minY, b.maxY, scr.step);
    forall d | d in ScreenDots(img, scr)
      ensures OnGrid(d.x, b.minX, scr.step) && d.x < b.maxX && OnGrid(d.y, b.minY, scr.step) && d.y < b.maxY
    {
      var u, w :| g(u, w) == Some(d) && OnGrid(u, b.minX, scr.step) && u < b.maxX && OnGrid(w, b.minY, scr.step) && w < b.maxY;
      assert CellDot(img, u, w, scr) == Some(d);
    }
    forall u, w | g(u, w).Some? ensures DotX(g(u, w).value) == u && DotY(g(u, w).value) == w {
      assert g(u, w) == CellDot(img, u, w, scr);
    }
    Walk2Ordered(g, DotX, DotY, b.minX, b.maxX, b.minY, b.maxY, scr.step);
  }

  /** Every grid cell whose sample yields a dot gets that dot. */
  lemma ScreenDotsComplete(img: Image, scr: Screen, u: int, v: int)
    requires var b := ScreenBounds(img.width, img.height, scr.angle, scr.trig);
             OnGrid(u, b.minX, scr.step) && u < b.maxX && OnGrid(v, b.minY, scr.step) && v < b.maxY
    requires CellDot(img, u, v, scr).Some?
    ensures CellDot(img, u, v, scr).value in ScreenDots(img, scr)
  {
    var b := ScreenBounds(img.width, img.height, scr.angle, scr.trig);
    var g := Cells(img, scr);
    assert g(u, v) == CellDot(img, u, v, scr);
    Walk2Complete(g, b.minX, b.maxX, b.minY, b.maxY, scr.step, u, v);
  }

  /** A negative step never enters the loops: `range(min, max, step)` is empty when `min <= max`. */
  lemma ScreenDotsNegativeStep(img: Image, scr: Screen)
    requires scr.step < 0
    ensures ScreenDots(img, scr) == []
  {
    var b := ScreenBounds(img.width, img.height, scr.angle, scr.trig);
    Walk2NegativeStep(Cells(img, scr), b.minX, b.maxX, b.minY, b.maxY, scr.step);
  }

  /** At angle 0 the sample point is the grid point itself, so the cell reads its own pixel. */
  lemma ZeroAngleCell(img: Image, x: int, y: int, scr: Screen)
    requires scr.angle == Radians(0.0) && scr.trig.cos(0.0) == 1.0 && scr.trig.sin(0.0) == 0.0
    ensures CellDot(img, x, y, scr) ==
              if 0 <= x < img.width && 0 <= y < img.height then
                var r := Radius(img.pixels[y][x], scr.dotSize, scr.invert);
                if r > 0.5 && Accepts(scr.variant, x, y, img.width, img.height, scr.dotSize) then Some(Dot(x, y, r)) else None
              else None
  {
    assert -scr.angle == 0.0;
    RotateIdentity(Point(x as real, y as real), Center(img.width, img.height), -scr.angle, scr.trig);
  }

  /** Every pixel has the value `v`. */
  predicate Uniform(img: Image, v: int) {
    forall y, x :: 0 <= y < |img.pixels| && 0 <= x < |img.pixels[y]| ==> img.pixels[y][x] == v
  }

  /**
   * A black image at angle 0 gets a full-size dot on every grid point
   * `(k * step, m * step)` of the canvas, and nothing else.
   */
  lemma BlackImageFullGrid(img: Image, trig: Trig, dotSize: int, step: int)
    requires Uniform(img, 0)
    requires trig.cos(0.0) == 1.0 && trig.sin(0.0) == 0.0
    requires step > 0 && dotSize > 1
    ensures var dots := ScreenDots(img, Screen(Radians(0.0), trig, dotSize, step, false, Basic));
            && (forall d :: d in dots ==>
                  d.r == dotSize as real / 2.0 && OnGrid(d.x, 0, step) && d.x < img.width && OnGrid(d.y, 0, step) && d.y < img.height)
            && (forall u, v :: OnGrid(u, 0, step) && u < img.width && OnGrid(v, 0, step) && v < img.height ==>
                  Dot(u, v, dotSize as real / 2.0) in dots)
  {
    var scr := Screen(Radians(0.0), trig, dotSize, step, false, Basic);
    ScreenBoundsAtZero(img.width, img.height, trig);
    ScreenDotsSound(img, scr);
    ScreenDotsOnGrid(img, scr);
    RadiusEnds(dotSize);
    forall d | d in ScreenDots(img, scr) ensures d.r == dotSize as real / 2.0 {
      ZeroAngleCell(img, d.x, d.y, scr);
    }
    forall u, v | OnGrid(u, 0, step) && u < img.width && OnGrid(v, 0, step) && v < img.height
      ensures Dot(u, v, dotSize as real / 2.0) in ScreenDots(img, scr)
    {
      ZeroAngleCell(img, u, v, scr);
      ScreenDotsComplete(img, scr, u, v);
    }
  }

  /** A white image (a black one when inverted) gets no dot at all, at any angle and step. */
  lemma BlankImageEmpty(img: Image, scr: Screen)
    requires (!scr.invert && Uniform(img, 255)) || (scr.invert && Uniform(img, 0))
    ensures ScreenDots(img, scr) == []
  {
    RadiusEnds(scr.dotSize);
    var b := ScreenBounds(img.width, img.height, scr.angle, scr.trig);
    var g := Cells(img, scr);
    forall u, w ensures g(u, w) == None {
      assert g(u, w) == CellDot(img, u, w, scr);
    }
    Walk2Nothing(g, b.minX, b.maxX, b.minY, b.maxY, scr.step);
  }
}
